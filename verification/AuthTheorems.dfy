// What holds over every run of the auth component.
module AuthTheorems {
  import opened Wrappers
  import opened Tables
  import opened AuthTables
  import opened TokenFamilies
  import opened AuthProtocol
  import opened AuthInvariants
  import opened AuthRuns

  /** The states that some run of requests leads to. */
  ghost predicate Reachable(s: State) {
    exists requests :: s == Run(INIT, requests)
  }

  lemma ReachableIsSound(s: State)
    requires Reachable(s)
    ensures Inv(s)
  {
    var requests :| s == Run(INIT, requests);
    RunIsSound(INIT, requests);
  }

  // ---------- workspaces ----------

  /** However members, invitations and accounts come and go, every workspace keeps an active admin. */
  lemma EveryWorkspaceKeepsAnAdmin(s: State, workspace: nat)
    requires Reachable(s) && workspace < |s.workspaces|
    ensures exists m :: 0 <= m < |s.members| && s.members[m].workspace == workspace && ActiveAdmin(s.members[m])
  {
    ReachableIsSound(s);
    assert HasAdmin(s.members, workspace);
  }

  /** A user has one membership row per workspace, and no pending invitation addresses a present member. */
  lemma MembershipsAndInvitationsStayDisjoint(s: State)
    requires Reachable(s)
    ensures && (forall m, n | 0 <= m < n < |s.members| && s.members[m].workspace == s.members[n].workspace ::
                  s.members[m].user != s.members[n].user)
            && (forall i, j | 0 <= i < j < |s.invitations| && s.invitations[i].status == s.invitations[j].status == Pending
                              && s.invitations[i].workspace == s.invitations[j].workspace ::
                  s.invitations[i].email != s.invitations[j].email)
            && (forall i, m | 0 <= i < |s.invitations| && 0 <= m < |s.members| && s.invitations[i].status == Pending
                              && LiveMember(s.members[m]) && s.members[m].workspace == s.invitations[i].workspace ::
                  s.members[m].user < |s.users| && s.users[s.members[m].user].email != s.invitations[i].email)
  {
    ReachableIsSound(s);
    forall m, n | 0 <= m < n < |s.members| && s.members[m].workspace == s.members[n].workspace
      ensures s.members[m].user != s.members[n].user
    {
      assert DistinctMembers(s, m, n);
    }
    forall i, j | 0 <= i < j < |s.invitations| && s.invitations[i].status == s.invitations[j].status == Pending
                  && s.invitations[i].workspace == s.invitations[j].workspace
      ensures s.invitations[i].email != s.invitations[j].email
    {
      assert DistinctInvitations(s, i, j);
    }
    forall i, m | 0 <= i < |s.invitations| && 0 <= m < |s.members| && s.invitations[i].status == Pending
                  && LiveMember(s.members[m]) && s.members[m].workspace == s.invitations[i].workspace
      ensures s.members[m].user < |s.users| && s.users[s.members[m].user].email != s.invitations[i].email
    {
      assert InvitesOutsider(s, i, m) && MemberOk(s, m);
    }
  }

  // ---------- token families ----------

  /** In every reachable state a family is one chain; only its newest token can be unrevoked. */
  lemma FamiliesAreChains(s: State, family: nat)
    requires Reachable(s) && family < s.families
    ensures var tokens := s.tokens;
            var rows := FamilyRows(tokens, family);
            && |rows| > 0 && rows[|rows| - 1] < |tokens| && tokens[rows[|rows| - 1]].replacedBy.None?
            && (forall k | 0 <= k < |rows| - 1 ::
                  && rows[k] < |tokens|
                  && tokens[rows[k]].replacedBy == Some(rows[k + 1])
                  && tokens[rows[k]].revokedAt.Some?)
  {
    ReachableIsSound(s);
    FamilyIsOneChain(s.tokens, s.families, s.clock, family);
  }

  lemma {:induction false} ExpiryGrowsAlongChain(tokens: seq<Token>, families: nat, now: Time, i: nat, k: nat)
    requires Chained(tokens, families, now)
    requires i < k < |tokens| && tokens[i].family == tokens[k].family
    ensures SameOwner(tokens[i], tokens[k]) && tokens[i].expiresAt <= tokens[k].expiresAt
    decreases k - i
  {
    assert PairOk(tokens, i, k) && RowOk(tokens, families, now, i);
    var next := tokens[i].replacedBy.value;
    if next < k {
      ExpiryGrowsAlongChain(tokens, families, now, next, k);
    }
  }

  /** Tokens are only ever issued to verified accounts; a family shares one owner and its expiry never shrinks. */
  lemma SessionsAreConsistent(s: State)
    requires Reachable(s)
    ensures && (forall i | 0 <= i < |s.tokens| :: VerifiedUser(s.users, s.tokens[i].user))
            && (forall i, k | 0 <= i < k < |s.tokens| && s.tokens[i].family == s.tokens[k].family ::
                  SameOwner(s.tokens[i], s.tokens[k]) && s.tokens[i].expiresAt <= s.tokens[k].expiresAt)
            && (forall i, j | 0 <= i < j < |s.verifications| && s.verifications[i].user == s.verifications[j].user ::
                  !Outstanding(s.verifications[i]) || !Outstanding(s.verifications[j]))
  {
    ReachableIsSound(s);
    forall i, k | 0 <= i < k < |s.tokens| && s.tokens[i].family == s.tokens[k].family
      ensures SameOwner(s.tokens[i], s.tokens[k]) && s.tokens[i].expiresAt <= s.tokens[k].expiresAt
    {
      ExpiryGrowsAlongChain(s.tokens, s.families, s.clock, i, k);
    }
    forall i, j | 0 <= i < j < |s.verifications| && s.verifications[i].user == s.verifications[j].user
      ensures !Outstanding(s.verifications[i]) || !Outstanding(s.verifications[j])
    {
      assert DistinctOutstanding(s.verifications, i, j);
    }
  }

  // ---------- dead sessions ----------

  /** Neither an access token nor a refresh token of the family is accepted, and presenting one changes no row. */
  ghost predicate Shut(s: State, family: nat) {
    && (forall claims: Claims | claims.family == family :: Authenticate(s, claims).Refused?)
    && (forall row: nat | row < |s.tokens| && s.tokens[row].family == family ::
          DoRefresh(s, row).1.Refused? && DoRefresh(s, row).0 == s)
  }

  lemma DeadIsShut(s: State, family: nat)
    requires Dead(s.tokens, family)
    ensures Shut(s, family)
  {
    forall row: nat | row < |s.tokens| && s.tokens[row].family == family
      ensures DoRefresh(s, row).1.Refused? && DoRefresh(s, row).0 == s
    {
      assert Revoke(s.tokens, OfRow(row), s.clock) == s.tokens;
      assert Revoke(s.tokens, OfFamily(family), s.clock) == s.tokens;
    }
  }

  /** A family whose tokens are all revoked is refused for good, whatever happens afterwards. */
  lemma DeadFamilyStaysShut(s: State, family: nat, after: seq<Request>)
    requires Inv(s) && family < s.families && Dead(s.tokens, family)
    ensures Dead(Run(s, after).tokens, family) && Shut(Run(s, after), family)
  {
    RunIsSound(s, after);
    DeadIsShut(Run(s, after), family);
  }

  lemma RevokedSessionsStayShut(s: State, which: Selector, s': State, row: nat, after: seq<Request>)
    requires Inv(s) && Inv(s') && s.families <= s'.families
    requires row < |s.tokens| && !which.OfRow? && Selects(which, row, s.tokens[row])
    requires s'.tokens == Revoke(s.tokens, which, s.clock)
             || TokensLater(Revoke(s.tokens, which, s.clock), s.families, s'.tokens, s'.families)
    ensures Shut(Run(s', after), s.tokens[row].family)
  {
    var family := s.tokens[row].family;
    assert family < s.families by {
      assert RowOk(s.tokens, s.families, s.clock, row);
    }
    assert Dead(s'.tokens, family) by {
      RevokeKillsFamily(s.tokens, s.families, which, s.clock, row);
    }
    DeadFamilyStaysShut(s', family, after);
  }

  /** Sessions open when a member is suspended stay shut, even if the member is reactivated or invited again. */
  lemma SuspensionShutsSessions(s: State, claims: Claims, member: nat, role: Option<Role>,
                                status: Option<MemberStatus>, after: seq<Request>, row: nat)
    requires Reachable(s)
    requires DoUpdateMember(s, claims, member, role, status).1.Done?
    requires DoUpdateMember(s, claims, member, role, status).0.members[member].status != Active
    requires row < |s.tokens| && s.tokens[row].user == s.members[member].user && s.tokens[row].workspace == claims.workspace
    ensures Shut(Run(DoUpdateMember(s, claims, member, role, status).0, after), s.tokens[row].family)
  {
    ReachableIsSound(s);
    var s' := DoUpdateMember(s, claims, member, role, status).0;
    assert Inv(s') by {
      UpdateMemberIsSound(s, claims, member, role, status);
    }
    RevokedSessionsStayShut(s, OfMember(claims.workspace, s.members[member].user), s', row, after);
  }

  /** Sessions open when a member is removed stay shut, even if the user joins the workspace again. */
  lemma RemovalShutsSessions(s: State, claims: Claims, member: nat, after: seq<Request>, row: nat)
    requires Reachable(s) && DoRemoveMember(s, claims, member).1.Done?
    requires row < |s.tokens| && s.tokens[row].user == s.members[member].user && s.tokens[row].workspace == claims.workspace
    ensures Shut(Run(DoRemoveMember(s, claims, member).0, after), s.tokens[row].family)
  {
    ReachableIsSound(s);
    var s' := DoRemoveMember(s, claims, member).0;
    assert Inv(s') by {
      RemoveMemberIsSound(s, claims, member);
    }
    RevokedSessionsStayShut(s, OfMember(claims.workspace, s.members[member].user), s', row, after);
  }

  /** A session that logs out stays shut. */
  lemma LogoutShutsSession(s: State, claims: Claims, after: seq<Request>)
    requires Reachable(s) && DoLogout(s, claims).1.Done?
    ensures Shut(Run(DoLogout(s, claims).0, after), claims.family)
  {
    ReachableIsSound(s);
    var s' := DoLogout(s, claims).0;
    assert Inv(s') by {
      LogoutIsSound(s, claims);
    }
    RevokedSessionsStayShut(s, OfFamily(claims.family), s', Authenticate(s, claims).token, after);
  }

  /** The session that asked for a workspace switch stays shut. */
  lemma SwitchShutsSession(s: State, claims: Claims, workspace: nat, after: seq<Request>)
    requires Reachable(s) && DoSwitchWorkspace(s, claims, workspace).1.Session?
    ensures Shut(Run(DoSwitchWorkspace(s, claims, workspace).0, after), claims.family)
  {
    ReachableIsSound(s);
    var s' := DoSwitchWorkspace(s, claims, workspace).0;
    assert Inv(s') by {
      SwitchWorkspaceIsSound(s, claims, workspace);
    }
    var remember := FamilyRemembers(s.tokens, claims.family);
    var revoked := Revoke(s.tokens, OfFamily(claims.family), s.clock);
    assert TokensLater(revoked, s.families, s'.tokens, s'.families) by {
      RevokeKeepsChains(s.tokens, s.families, OfFamily(claims.family), s.clock);
      OpenKeepsChains(revoked, s.families, claims.user, workspace, remember, s.clock);
    }
    RevokedSessionsStayShut(s, OfFamily(claims.family), s', Authenticate(s, claims).token, after);
  }

  // ---------- replaying a rotated token ----------

  lemma RotatedRowIsKept(s0: State, row: nat, between: seq<Request>)
    requires Reachable(s0) && row < |s0.tokens| && s0.tokens[row].replacedBy.Some?
    ensures Inv(Run(s0, between)) && row < |Run(s0, between).tokens| && Run(s0, between).tokens[row] == s0.tokens[row]
  {
    ReachableIsSound(s0);
    RunIsSound(s0, between);
    assert RowOk(s0.tokens, s0.families, s0.clock, row);
    assert RowLater(s0.tokens[row], Run(s0, between).tokens[row]);
  }

  /** What presenting a replaced token does, and what stays so afterwards. */
  ghost predicate ReplayOutcome(s: State, row: nat, after: seq<Request>)
    requires row < |s.tokens| && s.tokens[row].revokedAt.Some?
  {
    var t := s.tokens[row];
    var (s', reply) := DoRefresh(s, row);
    && (t.expiresAt < s.clock ==> reply == Refused(TokenExpired) && s' == s)
    && (s.clock <= t.expiresAt && s.clock <= t.revokedAt.value + REFRESH_REUSE_GRACE ==>
          reply == Refused(RefreshAlreadyRotated) && s' == s)
    && (s.clock <= t.expiresAt && t.revokedAt.value + REFRESH_REUSE_GRACE < s.clock ==>
          reply == Refused(RefreshReuseDetected) && Shut(Run(s', after), t.family))
  }

  lemma ReplayHasItsOutcome(s: State, row: nat, after: seq<Request>)
    requires Inv(s) && row < |s.tokens| && s.tokens[row].replacedBy.Some? && s.tokens[row].revokedAt.Some?
    ensures ReplayOutcome(s, row, after)
  {
    var t, s' := s.tokens[row], DoRefresh(s, row).0;
    if t.expiresAt < s.clock {
      assert Revoke(s.tokens, OfRow(row), s.clock) == s.tokens;
    } else if t.revokedAt.value + REFRESH_REUSE_GRACE < s.clock {
      assert Inv(s') by {
        RefreshIsSound(s, row);
      }
      RevokedSessionsStayShut(s, OfFamily(t.family), s', row, after);
    }
  }

  /** A rotated token presented after any further run, replays included. The grace is counted from its
      own rotation: within it nothing changes, after it the whole family is shut for good. */
  lemma ReplayOfRotatedToken(s0: State, row: nat, between: seq<Request>, after: seq<Request>)
    requires Reachable(s0) && row < |s0.tokens| && s0.tokens[row].replacedBy.Some?
    ensures var s := Run(s0, between);
            && s0.tokens[row].revokedAt.Some? && row < |s.tokens| && s.tokens[row] == s0.tokens[row]
            && ReplayOutcome(s, row, after)
  {
    RotatedRowIsKept(s0, row, between);
    assert RowOk(Run(s0, between).tokens, Run(s0, between).families, Run(s0, between).clock, row);
    ReplayHasItsOutcome(Run(s0, between), row, after);
  }

  /** Expiry is strict in refresh and inclusive in authenticate: they disagree at exactly one instant. */
  lemma ExpiryBoundary(s: State, row: nat)
    requires Reachable(s) && row < |s.tokens| && s.tokens[row].revokedAt.None?
    ensures var t := s.tokens[row];
            (ClassifyRefresh(t, s.clock) == RefreshActive) != KeepsFamilyAlive(t, Claims(t.user, t.workspace, t.family), s.clock)
            <==> s.clock == t.expiresAt
  {
    ReachableIsSound(s);
    assert RowOk(s.tokens, s.families, s.clock, row);
  }

  /** A session from a verification link, seven days later to the instant: refresh still takes what authenticate refuses. */
  lemma ExpiryBoundaryIsReached(email: string)
    ensures var s := Run(INIT, [Register(email), VerifyEmail(0), Tick(REFRESH_TTL)]);
            && Reachable(s) && |s.tokens| == 1 && s.tokens[0].revokedAt.None?
            && s.clock == s.tokens[0].expiresAt
            && ClassifyRefresh(s.tokens[0], s.clock) == RefreshActive
            && !KeepsFamilyAlive(s.tokens[0], Claims(s.tokens[0].user, s.tokens[0].workspace, s.tokens[0].family), s.clock)
  {
    var one, two := [Register(email)], [Register(email), VerifyEmail(0)];
    var three := [Register(email), VerifyEmail(0), Tick(REFRESH_TTL)];
    assert one[..0] == [] && two[..1] == one && three[..2] == two;
    assert Run(INIT, one) == DoRegister(INIT, email).0;
    assert Run(INIT, two) == DoVerifyEmail(Run(INIT, one), 0).0;
    assert Run(INIT, three) == After(Run(INIT, two), Tick(REFRESH_TTL));
  }

  // ---------- links that work once ----------

  ghost predicate Spent(s: State, secret: nat) {
    forall i | 0 <= i < |s.invitations| && s.invitations[i].secret == secret :: s.invitations[i].status != Pending
  }

  /** An invitation link that is accepted, revoked or superseded by a resend never works again. */
  lemma SpentInvitationStaysSpent(s: State, secret: nat, after: seq<Request>, profileValid: bool)
    requires Inv(s) && secret < s.secrets && Spent(s, secret)
    ensures DoAcceptInvitation(Run(s, after), secret, profileValid).1.Refused?
  {
    RunIsSound(s, after);
    var s' := Run(s, after);
    forall i | 0 <= i < |s'.invitations| && s'.invitations[i].secret == secret ensures s'.invitations[i].status != Pending {
      assert i < |s.invitations|;
      assert InvitationLater(s.invitations[i], s'.invitations[i], s.secrets);
    }
  }

  /** Accepting, revoking and resending each spend the link the invitation had. */
  lemma InvitationRequestsSpendTheLink(s: State, claims: Claims, row: nat, profileValid: bool)
    requires Inv(s) && row < |s.invitations|
    ensures DoAcceptInvitation(s, s.invitations[row].secret, profileValid).1.Session? ==>
              Spent(DoAcceptInvitation(s, s.invitations[row].secret, profileValid).0, s.invitations[row].secret)
    ensures DoRevokeInvitation(s, claims, row).1.Done? ==> Spent(DoRevokeInvitation(s, claims, row).0, s.invitations[row].secret)
    ensures DoResendInvitation(s, claims, row).1.Done? ==> Spent(DoResendInvitation(s, claims, row).0, s.invitations[row].secret)
  {
    var secret := s.invitations[row].secret;
    forall i | 0 <= i < |s.invitations| && i != row ensures s.invitations[i].secret != secret {
      assert if i < row then DistinctInvitations(s, i, row) else DistinctInvitations(s, row, i);
    }
    assert InvitationOk(s, row);
    if DoAcceptInvitation(s, secret, profileValid).1.Session? {
      AcceptInThreeParts(s, secret, profileValid);
    }
  }

  /** A verification link that opened a session never opens another. */
  lemma VerificationWorksOnce(s: State, row: nat, after: seq<Request>)
    requires Reachable(s) && DoVerifyEmail(s, row).1.Session?
    ensures DoVerifyEmail(Run(DoVerifyEmail(s, row).0, after), row).1.Refused?
  {
    ReachableIsSound(s);
    var s1 := DoVerifyEmail(s, row).0;
    VerifyEmailIsSound(s, row);
    RunIsSound(s1, after);
    assert VerificationLater(s1.verifications[row], Run(s1, after).verifications[row]);
  }

  // ---------- authority ----------

  function ClaimsOf(r: Request): Option<Claims> {
    match r
    case Logout(claims) => Some(claims)
    case SwitchWorkspace(claims, _) => Some(claims)
    case CreateInvitation(claims, _, _) => Some(claims)
    case ResendInvitation(claims, _) => Some(claims)
    case RevokeInvitation(claims, _) => Some(claims)
    case UpdateMember(claims, _, _, _) => Some(claims)
    case RemoveMember(claims, _) => Some(claims)
    case _ => None
  }

  /** Nothing outside one workspace changes, except that the user may open one session there, which records when. */
  ghost predicate OnlyWithin(s: State, s': State, own: nat, user: nat) {
    && s'.users == s.users && s'.workspaces == s.workspaces && s'.verifications == s.verifications
    && |s'.members| == |s.members| && |s.invitations| <= |s'.invitations| && |s.tokens| <= |s'.tokens| <= |s.tokens| + 1
    && (forall m | 0 <= m < |s.members| && s.members[m].workspace != own ::
          if s.members[m].user == user then SameStanding(s.members[m], s'.members[m]) else s'.members[m] == s.members[m])
    && (forall i | 0 <= i < |s.invitations| && s.invitations[i].workspace != own :: s'.invitations[i] == s.invitations[i])
    && (forall i | |s.invitations| <= i < |s'.invitations| :: s'.invitations[i].workspace == own)
    && (forall i | 0 <= i < |s.tokens| && s.tokens[i].workspace != own :: s'.tokens[i] == s.tokens[i])
    && (forall i | |s.tokens| <= i < |s'.tokens| :: s'.tokens[i].user == user)
  }

  /** A request made under one workspace leaves the members, invitations and sessions of all others as they are, but
      for the session that a switch opens for the user who asks. */
  lemma TenantsAreIsolated(s: State, r: Request)
    requires Reachable(s) && ClaimsOf(r).Some?
    ensures OnlyWithin(s, After(s, r), ClaimsOf(r).value.workspace, ClaimsOf(r).value.user)
  {
    ReachableIsSound(s);
    hide OnlyWithin, Reachable, Inv;
    match r
    case Logout(claims) => LogoutIsIsolated(s, claims);
    case SwitchWorkspace(claims, workspace) => SwitchIsIsolated(s, claims, workspace);
    case CreateInvitation(claims, email, role) => CreationIsIsolated(s, claims, email, role);
    case ResendInvitation(claims, row) => ResendingIsIsolated(s, claims, row);
    case RevokeInvitation(claims, row) => WithdrawalIsIsolated(s, claims, row);
    case UpdateMember(claims, row, role, status) => UpdateIsIsolated(s, claims, row, role, status);
    case RemoveMember(claims, row) => RemovalIsIsolated(s, claims, row);
  }

  lemma CreationIsIsolated(s: State, claims: Claims, email: string, role: Role)
    ensures OnlyWithin(s, DoCreateInvitation(s, claims, email, role).0, claims.workspace, claims.user)
  {
  }

  lemma ResendingIsIsolated(s: State, claims: Claims, row: nat)
    ensures OnlyWithin(s, DoResendInvitation(s, claims, row).0, claims.workspace, claims.user)
  {
  }

  lemma WithdrawalIsIsolated(s: State, claims: Claims, row: nat)
    ensures OnlyWithin(s, DoRevokeInvitation(s, claims, row).0, claims.workspace, claims.user)
  {
  }

  lemma UpdateIsIsolated(s: State, claims: Claims, row: nat, role: Option<Role>, status: Option<MemberStatus>)
    ensures OnlyWithin(s, DoUpdateMember(s, claims, row, role, status).0, claims.workspace, claims.user)
  {
  }

  lemma RemovalIsIsolated(s: State, claims: Claims, row: nat)
    ensures OnlyWithin(s, DoRemoveMember(s, claims, row).0, claims.workspace, claims.user)
  {
  }

  lemma LogoutIsIsolated(s: State, claims: Claims)
    requires Inv(s)
    ensures OnlyWithin(s, DoLogout(s, claims).0, claims.workspace, claims.user)
  {
    if Authenticate(s, claims).Session? {
      FamilyHasOneWorkspace(s.tokens, s.families, s.clock, Authenticate(s, claims).token);
    }
  }

  lemma SwitchIsIsolated(s: State, claims: Claims, workspace: nat)
    requires Inv(s)
    ensures OnlyWithin(s, DoSwitchWorkspace(s, claims, workspace).0, claims.workspace, claims.user)
  {
    hide PeopleOk, ActiveMembership, UsableWorkspace;
    if Authenticate(s, claims).Session? {
      FamilyHasOneWorkspace(s.tokens, s.families, s.clock, Authenticate(s, claims).token);
    }
  }

  lemma FamilyHasOneWorkspace(tokens: seq<Token>, families: nat, now: Time, row: nat)
    requires Chained(tokens, families, now) && row < |tokens|
    ensures forall i | 0 <= i < |tokens| && tokens[i].family == tokens[row].family :: tokens[i].workspace == tokens[row].workspace
  {
    forall i | 0 <= i < |tokens| && tokens[i].family == tokens[row].family
      ensures tokens[i].workspace == tokens[row].workspace
    {
      if i < row {
        assert PairOk(tokens, i, row);
      } else if row < i {
        assert PairOk(tokens, row, i);
      }
    }
  }

  /** Why the standing of member m may differ after the request. */
  ghost predicate Entitled(s: State, r: Request, m: nat, now: Member) {
    match r
    case Register(_) => m == |s.members| && now.workspace == |s.workspaces| && now.role == Admin
    case UpdateMember(claims, row, _, _) => row == m && now.workspace == claims.workspace && IsAdmin(s, claims)
    case RemoveMember(claims, row) => row == m && now.workspace == claims.workspace && IsAdmin(s, claims)
    case AcceptInvitation(secret, _) => exists row: nat :: row < |s.invitations| && Invited(s, row, secret, m, now)
    case _ => false
  }

  predicate IsAdmin(s: State, claims: Claims) {
    Authenticate(s, claims).Session? && Authenticate(s, claims).role == Admin
  }

  /** The invitation is pending and unexpired, offers exactly this, and goes to somebody who is not in the workspace. */
  predicate Invited(s: State, row: nat, secret: nat, m: nat, now: Member)
    requires row < |s.invitations|
  {
    var i := s.invitations[row];
    && i.secret == secret && i.status == Pending && s.clock <= i.expiresAt
    && now.workspace == i.workspace && now.role == i.role
    && (m < |s.members| ==> s.members[m].deletedAt.Some?)
  }

  /** Roles, statuses and membership change only by registering, by an active admin of that workspace, or by
      accepting a pending, unexpired invitation to it, with the role it offers and never over a present member. */
  lemma StandingChangesOnlyWithAuthority(s: State, r: Request, m: nat)
    requires Reachable(s) && m < |After(s, r).members|
    requires m < |s.members| ==> !SameStanding(s.members[m], After(s, r).members[m])
    ensures Entitled(s, r, m, After(s, r).members[m])
  {
    match r
    case AcceptInvitation(secret, valid) =>
      ReachableIsSound(s);
      AcceptanceIsEntitled(s, secret, valid, m);
    case Register(_) =>
    case UpdateMember(claims, row, role, status) => UpdateIsEntitled(s, claims, row, role, status, m);
    case RemoveMember(claims, row) => RemovalIsEntitled(s, claims, row, m);
    case VerifyEmail(row) => VerifyEmailKeepsStanding(s, row);
    case Login(email, matches, remember) => LoginKeepsStanding(s, email, matches, remember);
    case Refresh(row) => RefreshKeepsStanding(s, row);
    case SwitchWorkspace(claims, workspace) => SwitchKeepsStanding(s, claims, workspace);
    case _ => OtherRequestsKeepMembers(s, r);
  }

  ghost predicate KeepsStanding(s: State, s': State) {
    |s'.members| == |s.members| && forall m | 0 <= m < |s.members| :: SameStanding(s.members[m], s'.members[m])
  }

  lemma VerifyEmailKeepsStanding(s: State, row: nat)
    ensures KeepsStanding(s, DoVerifyEmail(s, row).0)
  {
  }

  lemma RefreshKeepsStanding(s: State, row: nat)
    ensures KeepsStanding(s, DoRefresh(s, row).0)
  {
  }

  lemma SwitchKeepsStanding(s: State, claims: Claims, workspace: nat)
    ensures KeepsStanding(s, DoSwitchWorkspace(s, claims, workspace).0)
  {
  }

  lemma LoginKeepsStanding(s: State, email: string, matches: bool, remember: bool)
    ensures KeepsStanding(s, DoLogin(s, email, matches, remember).0)
  {
  }

  lemma OtherRequestsKeepMembers(s: State, r: Request)
    requires !r.Register? && !r.VerifyEmail? && !r.Login? && !r.Refresh? && !r.SwitchWorkspace?
    requires !r.AcceptInvitation? && !r.UpdateMember? && !r.RemoveMember?
    ensures After(s, r).members == s.members
  {
  }

  lemma UpdateIsEntitled(s: State, claims: Claims, row: nat, role: Option<Role>, status: Option<MemberStatus>, m: nat)
    requires var s' := DoUpdateMember(s, claims, row, role, status).0;
             m < |s'.members| && (m < |s.members| ==> !SameStanding(s.members[m], s'.members[m]))
    ensures Entitled(s, UpdateMember(claims, row, role, status), m, DoUpdateMember(s, claims, row, role, status).0.members[m])
  {
  }

  lemma RemovalIsEntitled(s: State, claims: Claims, row: nat, m: nat)
    requires var s' := DoRemoveMember(s, claims, row).0;
             m < |s'.members| && (m < |s.members| ==> !SameStanding(s.members[m], s'.members[m]))
    ensures Entitled(s, RemoveMember(claims, row), m, DoRemoveMember(s, claims, row).0.members[m])
  {
  }

  lemma AcceptanceIsEntitled(s: State, secret: nat, profileValid: bool, m: nat)
    requires Inv(s)
    requires var s' := DoAcceptInvitation(s, secret, profileValid).0;
             m < |s'.members| && (m < |s.members| ==> !SameStanding(s.members[m], s'.members[m]))
    ensures exists row: nat :: row < |s.invitations|
                               && Invited(s, row, secret, m, DoAcceptInvitation(s, secret, profileValid).0.members[m])
  {
    AcceptInThreeParts(s, secret, profileValid);
    var row := FindInvitation(s, secret).value;
    var (s1, user) := AdmitAccount(s, s.invitations[row].email);
    assert PeopleOk(s1) && s1.members == s.members && s1.invitations == s.invitations
           && user < |s1.users| && s1.users[user].email == s.invitations[row].email by {
      AdmitAccountKeepsPeople(s, s.invitations[row].email);
    }
    AdmitsOnlyOutsiders(s1, row, user);
    assert Invited(s, row, secret, m, DoAcceptInvitation(s, secret, profileValid).0.members[m]);
  }
}
