// Exactly when each auth handler gives which answer, and exactly what it then changes, read off the columns of the tables.
module AuthAnswers {
  import opened Wrappers
  import opened Tables
  import opened AuthTables
  import opened TokenFamilies
  import opened AuthProtocol
  import opened AuthInvariants
  import opened AuthSessions

  // ---------- who may do what ----------

  predicate AccountOf(s: State, email: string, user: nat) {
    user < |s.users| && s.users[user].email == email && !s.users[user].deleted
  }

  predicate IsMember(m: Member, workspace: nat, user: nat) {
    m.workspace == workspace && m.user == user && m.deletedAt.None?
  }

  predicate HasRole(m: Member, workspace: nat, user: nat, role: Role) {
    IsMember(m, workspace, user) && m.status == Active && m.role == role
  }

  /** The user acts in the workspace under this role: a verified active account, a live workspace, an active membership. */
  predicate ActsAs(s: State, workspace: nat, user: nat, role: Role) {
    && user < |s.users| && s.users[user].active && !s.users[user].deleted && s.users[user].verifiedAt.Some?
    && workspace < |s.workspaces| && !s.workspaces[workspace].deleted
    && exists m | 0 <= m < |s.members| :: HasRole(s.members[m], workspace, user, role)
  }

  predicate Acts(s: State, workspace: nat, user: nat) {
    ActsAs(s, workspace, user, Admin) || ActsAs(s, workspace, user, Recruiter) || ActsAs(s, workspace, user, HiringManager)
  }

  predicate CarriedBy(t: Token, claims: Claims) {
    t.family == claims.family && t.user == claims.user && t.workspace == claims.workspace
  }

  predicate SessionOpen(s: State, claims: Claims) {
    exists t | 0 <= t < |s.tokens| :: CarriedBy(s.tokens[t], claims) && s.tokens[t].revokedAt.None? && s.clock < s.tokens[t].expiresAt
  }

  predicate MemberAsks(s: State, claims: Claims) {
    Acts(s, claims.workspace, claims.user) && SessionOpen(s, claims)
  }

  predicate AdminAsks(s: State, claims: Claims) {
    ActsAs(s, claims.workspace, claims.user, Admin) && SessionOpen(s, claims)
  }

  /** Why claims are refused. */
  predicate TurnedAway(s: State, claims: Claims, problem: Problem) {
    match problem
    case MembershipInactive => !Acts(s, claims.workspace, claims.user)
    case InvalidToken => Acts(s, claims.workspace, claims.user) && !SessionOpen(s, claims)
    case _ => false
  }

  /** Why they are refused where an admin is needed. */
  predicate AdminTurnedAway(s: State, claims: Claims, problem: Problem) {
    TurnedAway(s, claims, problem) || (problem == Forbidden && MemberAsks(s, claims) && !AdminAsks(s, claims))
  }

  lemma MembershipActs(s: State, workspace: nat, user: nat, role: Role)
    requires PeopleOk(s)
    ensures var m := ActiveMembership(s, workspace, user);
            m.Some? && s.members[m.value].role == role <==> ActsAs(s, workspace, user, role)
  {
    if ActsAs(s, workspace, user, role) {
      var m :| 0 <= m < |s.members| && HasRole(s.members[m], workspace, user, role);
      LiveRowIsFound(s, m);
    }
    var found := ActiveMembership(s, workspace, user);
    if found.Some? && s.members[found.value].role == role {
      assert HasRole(s.members[found.value], workspace, user, role);
    }
  }

  lemma MembershipActsIff(s: State, workspace: nat, user: nat)
    requires PeopleOk(s)
    ensures ActiveMembership(s, workspace, user).Some? <==> Acts(s, workspace, user)
  {
    MembershipActs(s, workspace, user, Admin);
    MembershipActs(s, workspace, user, Recruiter);
    MembershipActs(s, workspace, user, HiringManager);
  }

  /** Claims are accepted exactly from a user who acts in the workspace and whose session is open, under the role the
      membership has at that moment. */
  lemma ClaimsAnswer(s: State, claims: Claims)
    requires PeopleOk(s)
    ensures match Authenticate(s, claims)
            case Session(_, c, role) => c == claims && ActsAs(s, claims.workspace, claims.user, role) && MemberAsks(s, claims)
            case Refused(problem) => TurnedAway(s, claims, problem)
            case Done => false
  {
    MembershipActsIff(s, claims.workspace, claims.user);
    var m := ActiveMembership(s, claims.workspace, claims.user);
    if m.Some? {
      MembershipActs(s, claims.workspace, claims.user, s.members[m.value].role);
      var t := FindFirst(s.tokens, (t: Token) => KeepsFamilyAlive(t, claims, s.clock));
      if t.Some? {
        assert CarriedBy(s.tokens[t.value], claims);
      } else {
        assert forall i | 0 <= i < |s.tokens| :: !KeepsFamilyAlive(s.tokens[i], claims, s.clock);
      }
    }
  }

  lemma AdminAnswer(s: State, claims: Claims)
    requires PeopleOk(s)
    ensures match RequireAdmin(s, claims)
            case Session(_, _, _) => AdminAsks(s, claims)
            case Refused(problem) => AdminTurnedAway(s, claims, problem)
            case Done => false
  {
    ClaimsAnswer(s, claims);
    MembershipActs(s, claims.workspace, claims.user, Admin);
  }

  // ---------- what changes ----------

  /** The live membership records the access; every other member stays as it is. */
  predicate AccessRecorded(before: seq<Member>, after: seq<Member>, workspace: nat, user: nat, now: Time) {
    |after| == |before|
    && forall m | 0 <= m < |before| ::
         after[m] == if IsMember(before[m], workspace, user) then before[m].(lastAccessedAt := Some(now)) else before[m]
  }

  /** The account is verified now unless it was before; no other changes. */
  predicate VerifiedNow(before: seq<User>, after: seq<User>, user: nat, now: Time) {
    |after| == |before|
    && forall u | 0 <= u < |before| ::
         after[u] == if u == user && before[u].verifiedAt.None? then before[u].(verifiedAt := Some(now)) else before[u]
  }

  predicate LinkShut(before: Verification, after: Verification, user: nat, now: Time) {
    after == if before.user == user && before.consumedAt.None? && before.revokedAt.None?
             then before.(revokedAt := Some(now)) else before
  }

  predicate TokenShut(before: Token, after: Token, shut: bool, now: Time) {
    after == if shut && before.revokedAt.None? then before.(revokedAt := Some(now)) else before
  }

  predicate FamilyShut(before: seq<Token>, after: seq<Token>, family: nat, now: Time) {
    |before| <= |after| && forall t | 0 <= t < |before| :: TokenShut(before[t], after[t], before[t].family == family, now)
  }

  predicate MemberLoggedOut(before: seq<Token>, after: seq<Token>, workspace: nat, user: nat, now: Time) {
    |before| == |after|
    && forall t | 0 <= t < |before| ::
         TokenShut(before[t], after[t], before[t].workspace == workspace && before[t].user == user, now)
  }

  predicate OldTokensKept(before: seq<Token>, after: seq<Token>) {
    |after| == |before| + 1 && forall t | 0 <= t < |before| :: after[t] == before[t]
  }

  // ---------- registration and verification ----------

  predicate RegisterAnswer(s: State, email: string, s': State, reply: Reply) {
    match reply
    case Done =>
      && (forall u | 0 <= u < |s.users| :: !AccountOf(s, email, u))
      && s' == s.(users := s.users + [User(email, true, None, false)],
                  workspaces := s.workspaces + [Workspace(|s.users|, false)],
                  members := s.members + [Member(|s.workspaces|, |s.users|, Admin, Active, None, None)],
                  verifications := s.verifications + [Verification(|s.users|, |s.workspaces|, s.clock + DAY, None, None)])
    case Refused(problem) => s' == s && problem == EmailInUse && exists u | 0 <= u < |s.users| :: AccountOf(s, email, u)
    case _ => false
  }

  lemma RegisterAnswers(s: State, email: string)
    ensures RegisterAnswer(s, email, DoRegister(s, email).0, DoRegister(s, email).1)
  {
    var found := FindUser(s.users, email);
    assert found.Some? ==> AccountOf(s, email, found.value);
  }

  /** The link's user has a row in its workspace, deleted or not, with this role. */
  predicate LinkOf(s: State, v: Verification, role: Role) {
    exists m | 0 <= m < |s.members| :: s.members[m].workspace == v.workspace && s.members[m].user == v.user && s.members[m].role == role
  }

  predicate LinkKnown(s: State, row: nat) {
    row < |s.verifications|
    && (LinkOf(s, s.verifications[row], Admin) || LinkOf(s, s.verifications[row], Recruiter)
        || LinkOf(s, s.verifications[row], HiringManager))
  }

  predicate VerifyEmailAnswer(s: State, row: nat, s': State, reply: Reply) {
    match reply
    case Session(_, claims, role) =>
      && row < |s.verifications|
      && var v := s.verifications[row];
         && v.consumedAt.None? && v.revokedAt.None? && s.clock <= v.expiresAt && LinkOf(s, v, role)
         && claims.user == v.user && claims.workspace == v.workspace
         && s' == s.(users := s'.users, members := s'.members, verifications := s'.verifications, tokens := s'.tokens,
                     families := s.families + 1)
         && VerifiedNow(s.users, s'.users, v.user, s.clock)
         && |s'.verifications| == |s.verifications| && s'.verifications[row] == v.(consumedAt := Some(s.clock))
         && (forall i | 0 <= i < |s.verifications| && i != row ::
               LinkShut(s.verifications[i], s'.verifications[i], v.user, s.clock))
         && AccessRecorded(s.members, s'.members, v.workspace, v.user, s.clock) && OldTokensKept(s.tokens, s'.tokens)
    case Refused(problem) =>
      && s' == s
      && (match problem
          case TokenExpired => LinkKnown(s, row) && s.verifications[row].expiresAt < s.clock
          case InvalidToken =>
            LinkKnown(s, row) ==>
              var v := s.verifications[row];
              s.clock <= v.expiresAt && (v.consumedAt.Some? || v.revokedAt.Some?)
          case _ => false)
    case Done => false
  }

  lemma LinkIsKnownIff(s: State, row: nat)
    requires PeopleOk(s) && row < |s.verifications|
    ensures var v := s.verifications[row];
            var found := FindRow(s.members, v.workspace, v.user);
            && (found.Some? <==> LinkKnown(s, row))
            && (found.Some? ==> v.workspace < |s.workspaces| && LinkOf(s, v, s.members[found.value].role))
  {
    var v := s.verifications[row];
    var found := FindRow(s.members, v.workspace, v.user);
    if found.Some? {
      assert MemberOk(s, found.value);
      assert LinkOf(s, v, s.members[found.value].role);
    }
  }

  lemma VerifyEmailAnswers(s: State, row: nat)
    requires Inv(s)
    ensures VerifyEmailAnswer(s, row, DoVerifyEmail(s, row).0, DoVerifyEmail(s, row).1)
  {
    if row < |s.verifications| {
      LinkIsKnownIff(s, row);
    }
  }

  predicate OldestMembership(s: State, user: nat, m: nat) {
    && m < |s.members| && s.members[m].user == user && s.members[m].deletedAt.None?
    && forall k | 0 <= k < m :: s.members[k].user != user || s.members[k].deletedAt.Some?
  }

  predicate AwaitsVerification(s: State, email: string, user: nat) {
    AccountOf(s, email, user) && s.users[user].active && s.users[user].verifiedAt.None?
  }

  /** A link goes to an unverified active account with a membership, for its oldest one; nothing else happens. */
  ghost predicate ResendVerificationAnswer(s: State, email: string, s': State, reply: Reply) {
    && reply == Done
    && (forall u, m: nat | AwaitsVerification(s, email, u) && OldestMembership(s, u, m) ::
          && s' == s.(verifications := s'.verifications) && |s'.verifications| == |s.verifications| + 1
          && s'.verifications[|s.verifications|] == Verification(u, s.members[m].workspace, s.clock + DAY, None, None)
          && forall i | 0 <= i < |s.verifications| :: LinkShut(s.verifications[i], s'.verifications[i], u, s.clock))
    && ((forall u, m: nat | AwaitsVerification(s, email, u) :: !OldestMembership(s, u, m)) ==> s' == s)
  }

  lemma AccountIsFound(s: State, email: string, user: nat)
    requires PeopleOk(s)
    ensures AccountOf(s, email, user) <==> FindUser(s.users, email) == Some(user)
  {
    var found := FindUser(s.users, email);
    if AccountOf(s, email, user) {
      assert found.value < user ==> DistinctAccounts(s, found.value, user);
    }
  }

  lemma OldestIsFound(s: State, user: nat, m: nat)
    ensures OldestMembership(s, user, m) <==> FindFirst(s.members, (m: Member) => m.user == user && LiveMember(m)) == Some(m)
  {
  }

  lemma ResendVerificationAnswers(s: State, email: string)
    requires Inv(s)
    ensures ResendVerificationAnswer(s, email, DoResendVerification(s, email).0, DoResendVerification(s, email).1)
  {
    forall u: nat ensures AwaitsVerification(s, email, u) ==> FindUser(s.users, email) == Some(u) {
      AccountIsFound(s, email, u);
    }
    forall u: nat, m: nat
      ensures OldestMembership(s, u, m) <==> FindFirst(s.members, (m: Member) => m.user == u && LiveMember(m)) == Some(m)
    {
      OldestIsFound(s, u, m);
    }
    var found := FindUser(s.users, email);
    if found.Some? && s.users[found.value].active && s.users[found.value].verifiedAt.None? {
      assert AwaitsVerification(s, email, found.value);
      var oldest := FindFirst(s.members, (m: Member) => m.user == found.value && LiveMember(m));
      assert oldest.Some? ==> OldestMembership(s, found.value, oldest.value);
    }
  }

  // ---------- login, refresh, logout, switch ----------

  predicate MayLandIn(s: State, user: nat, m: nat) {
    && m < |s.members| && s.members[m].user == user && s.members[m].deletedAt.None? && s.members[m].status == Active
    && s.members[m].workspace < |s.workspaces| && !s.workspaces[s.members[m].workspace].deleted
  }

  /** The first membership was accessed more recently; never counts as longest ago. */
  predicate Fresher(a: Member, b: Member) {
    a.lastAccessedAt.Some? && (b.lastAccessedAt.Some? ==> a.lastAccessedAt.value > b.lastAccessedAt.value)
  }

  /** No other comes before it: by last access, and among equals by age. */
  predicate LandsIn(s: State, user: nat, m: nat) {
    && MayLandIn(s, user, m)
    && forall k: nat | k < |s.members| && k != m && MayLandIn(s, user, k) ::
         !Fresher(s.members[k], s.members[m]) && (k < m ==> Fresher(s.members[m], s.members[k]))
  }

  predicate LoginAnswer(s: State, email: string, matches: bool, s': State, reply: Reply) {
    match reply
    case Session(_, claims, role) =>
      && AccountOf(s, email, claims.user) && matches && s.users[claims.user].active && s.users[claims.user].verifiedAt.Some?
      && (exists m: nat | m < |s.members| ::
            LandsIn(s, claims.user, m) && s.members[m].workspace == claims.workspace && s.members[m].role == role)
      && s' == s.(members := s'.members, tokens := s'.tokens, families := s.families + 1)
      && AccessRecorded(s.members, s'.members, claims.workspace, claims.user, s.clock) && OldTokensKept(s.tokens, s'.tokens)
    case Refused(problem) =>
      && s' == s
      && (match problem
          case InvalidCredentials => !matches || forall u | 0 <= u < |s.users| && AccountOf(s, email, u) :: !s.users[u].active
          case EmailVerificationRequired =>
            matches && exists u | 0 <= u < |s.users| :: AwaitsVerification(s, email, u)
          case MembershipInactive =>
            matches && exists u | 0 <= u < |s.users| ::
              && AccountOf(s, email, u) && s.users[u].active && s.users[u].verifiedAt.Some?
              && forall m: nat | m < |s.members| :: !MayLandIn(s, u, m)
          case _ => false)
    case Done => false
  }

  lemma PreferredIsWhereOneLands(s: State, user: nat)
    ensures var best := PreferredMembership(s, user, |s.members|);
            && (best.Some? ==> LandsIn(s, user, best.value))
            && (best.None? ==> forall m: nat | m < |s.members| :: !MayLandIn(s, user, m))
  {
    assert forall m: nat | m < |s.members| :: MayLandIn(s, user, m) <==> LoginCandidate(s, user, s.members[m]);
    assert forall a: Member, b: Member :: Fresher(a, b) <==> MoreRecent(a, b);
  }

  lemma LoginAnswers(s: State, email: string, matches: bool, remember: bool)
    requires Inv(s)
    ensures LoginAnswer(s, email, matches, DoLogin(s, email, matches, remember).0, DoLogin(s, email, matches, remember).1)
  {
    forall u: nat ensures AccountOf(s, email, u) <==> FindUser(s.users, email) == Some(u) {
      AccountIsFound(s, email, u);
    }
    var found := FindUser(s.users, email);
    if found.Some? {
      PreferredIsWhereOneLands(s, found.value);
      assert s.users[found.value].active && s.users[found.value].verifiedAt.None? ==> AwaitsVerification(s, email, found.value);
    }
    hide FindUser, PreferredMembership, LandsIn, MayLandIn;
  }

  predicate RefreshAnswer(s: State, row: nat, s': State, reply: Reply) {
    match reply
    case Session(_, claims, role) =>
      && row < |s.tokens|
      && var t := s.tokens[row];
         && t.revokedAt.None? && s.clock <= t.expiresAt && ActsAs(s, t.workspace, t.user, role)
         && claims == Claims(t.user, t.workspace, t.family)
         && s' == s.(members := s'.members, tokens := s'.tokens)
         && AccessRecorded(s.members, s'.members, t.workspace, t.user, s.clock)
         && |s'.tokens| == |s.tokens| + 1
         && s'.tokens[row] == t.(revokedAt := Some(s.clock), replacedBy := Some(|s.tokens|))
         && forall i | 0 <= i < |s.tokens| && i != row :: s'.tokens[i] == s.tokens[i]
    case Refused(problem) =>
      && s' == s.(tokens := s'.tokens)
      && (if row >= |s.tokens| then problem == InvalidToken && s' == s
          else
            var t := s.tokens[row];
            match problem
            case TokenExpired =>
              t.expiresAt < s.clock && |s'.tokens| == |s.tokens|
              && forall i | 0 <= i < |s.tokens| :: TokenShut(s.tokens[i], s'.tokens[i], i == row, s.clock)
            case RefreshAlreadyRotated => s' == s && s.clock <= t.expiresAt && RotatedLately(t, s.clock)
            case RefreshReuseDetected =>
              && s.clock <= t.expiresAt && t.revokedAt.Some? && !RotatedLately(t, s.clock)
              && |s'.tokens| == |s.tokens| && FamilyShut(s.tokens, s'.tokens, t.family, s.clock)
            case MembershipInactive =>
              s' == s && s.clock <= t.expiresAt && t.revokedAt.None? && !Acts(s, t.workspace, t.user)
            case _ => false)
    case Done => false
  }

  predicate RotatedLately(t: Token, now: Time) {
    t.replacedBy.Some? && t.revokedAt.Some? && now <= t.revokedAt.value + 5 * SECOND
  }

  lemma RefreshAnswers(s: State, row: nat)
    requires Inv(s)
    ensures RefreshAnswer(s, row, DoRefresh(s, row).0, DoRefresh(s, row).1)
  {
    if row < |s.tokens| {
      var t := s.tokens[row];
      assert RowOk(s.tokens, s.families, s.clock, row);
      MembershipActsIff(s, t.workspace, t.user);
      var m := ActiveMembership(s, t.workspace, t.user);
      if m.Some? {
        MembershipActs(s, t.workspace, t.user, s.members[m.value].role);
      }
    }
  }

  predicate LogoutAnswer(s: State, claims: Claims, s': State, reply: Reply) {
    match reply
    case Done =>
      && MemberAsks(s, claims) && s' == s.(tokens := s'.tokens)
      && |s'.tokens| == |s.tokens| && FamilyShut(s.tokens, s'.tokens, claims.family, s.clock)
    case Refused(problem) => s' == s && TurnedAway(s, claims, problem)
    case _ => false
  }

  lemma LogoutAnswers(s: State, claims: Claims)
    requires Inv(s)
    ensures LogoutAnswer(s, claims, DoLogout(s, claims).0, DoLogout(s, claims).1)
  {
    ClaimsAnswer(s, claims);
    hide TurnedAway, MemberAsks, Authenticate;
  }

  lemma FamilyIsShut(tokens: seq<Token>, family: nat, now: Time)
    ensures forall t: Token :: FamilyShut(tokens, Revoke(tokens, OfFamily(family), now) + [t], family, now)
    ensures |Revoke(tokens, OfFamily(family), now)| == |tokens|
  {
  }

  lemma AccessIsRecorded(members: seq<Member>, workspace: nat, user: nat, now: Time)
    ensures AccessRecorded(members, Touch(members, workspace, user, now), workspace, user, now)
  {
  }

  predicate SwitchAnswer(s: State, claims: Claims, workspace: nat, s': State, reply: Reply) {
    match reply
    case Session(_, now, role) =>
      && MemberAsks(s, claims) && ActsAs(s, workspace, claims.user, role)
      && now.user == claims.user && now.workspace == workspace
      && s' == s.(members := s'.members, tokens := s'.tokens, families := s.families + 1)
      && AccessRecorded(s.members, s'.members, workspace, claims.user, s.clock)
      && |s'.tokens| == |s.tokens| + 1 && FamilyShut(s.tokens, s'.tokens, claims.family, s.clock)
    case Refused(problem) =>
      && s' == s
      && (TurnedAway(s, claims, problem)
          || (problem == MembershipInactive && MemberAsks(s, claims) && !Acts(s, workspace, claims.user)))
    case Done => false
  }

  lemma SwitchAnswers(s: State, claims: Claims, workspace: nat)
    requires Inv(s)
    ensures SwitchAnswer(s, claims, workspace, DoSwitchWorkspace(s, claims, workspace).0, DoSwitchWorkspace(s, claims, workspace).1)
  {
    ClaimsAnswer(s, claims);
    MembershipActsIff(s, workspace, claims.user);
    var m := ActiveMembership(s, workspace, claims.user);
    if m.Some? {
      MembershipActs(s, workspace, claims.user, s.members[m.value].role);
    }
    FamilyIsShut(s.tokens, claims.family, s.clock);
    AccessIsRecorded(s.members, workspace, claims.user, s.clock);
    hide TurnedAway, MemberAsks, Authenticate, Acts, ActsAs, ActiveMembership, AccessRecorded, FamilyShut, Touch, Revoke, Inv;
  }

  // ---------- invitations ----------

  predicate InWorkspace(s: State, workspace: nat, email: string) {
    exists m | 0 <= m < |s.members| ::
      s.members[m].workspace == workspace && s.members[m].deletedAt.None? && s.members[m].user < |s.users|
      && s.users[s.members[m].user].email == email
  }

  predicate InvitedTo(s: State, workspace: nat, email: string) {
    exists i | 0 <= i < |s.invitations| ::
      s.invitations[i].status == Pending && s.invitations[i].workspace == workspace && s.invitations[i].email == email
  }

  lemma InWorkspaceIff(s: State, workspace: nat, email: string)
    ensures InWorkspace(s, workspace, email)
            <==> FindFirst(s.members, (m: Member) => MemberWithEmail(s, m, workspace, email)).Some?
  {
    var present := FindFirst(s.members, (m: Member) => MemberWithEmail(s, m, workspace, email));
    assert forall m | 0 <= m < |s.members| && MemberWithEmail(s, s.members[m], workspace, email) :: present.Some?;
  }

  lemma InvitedToIff(s: State, workspace: nat, email: string)
    ensures InvitedTo(s, workspace, email) <==> FindFirst(s.invitations, (i: Invitation) => PendingFor(i, workspace, email)).Some?
  {
    var pending := FindFirst(s.invitations, (i: Invitation) => PendingFor(i, workspace, email));
    assert forall i | 0 <= i < |s.invitations| && PendingFor(s.invitations[i], workspace, email) :: pending.Some?;
  }

  predicate CreateInvitationAnswer(s: State, claims: Claims, email: string, role: Role, s': State, reply: Reply) {
    match reply
    case Done =>
      && AdminAsks(s, claims) && !InWorkspace(s, claims.workspace, email) && !InvitedTo(s, claims.workspace, email)
      && s' == s.(secrets := s.secrets + 1,
                  invitations := s.invitations + [Invitation(claims.workspace, email, role, s.secrets, Pending, claims.user,
                                                             s.clock + 7 * DAY)])
    case Refused(problem) =>
      && s' == s
      && (match problem
          case AlreadyMember => AdminAsks(s, claims) && InWorkspace(s, claims.workspace, email)
          case InvitationPending =>
            AdminAsks(s, claims) && !InWorkspace(s, claims.workspace, email) && InvitedTo(s, claims.workspace, email)
          case _ => AdminTurnedAway(s, claims, problem))
    case _ => false
  }

  lemma CreateInvitationAnswers(s: State, claims: Claims, email: string, role: Role)
    requires Inv(s)
    ensures CreateInvitationAnswer(s, claims, email, role, DoCreateInvitation(s, claims, email, role).0,
                                   DoCreateInvitation(s, claims, email, role).1)
  {
    AdminAnswer(s, claims);
    InWorkspaceIff(s, claims.workspace, email);
    InvitedToIff(s, claims.workspace, email);
    hide AdminTurnedAway, AdminAsks, RequireAdmin, InWorkspace, InvitedTo, MemberWithEmail, PendingFor, FindFirst, Inv;
  }

  predicate PendingHere(s: State, claims: Claims, row: nat) {
    row < |s.invitations| && s.invitations[row].workspace == claims.workspace && s.invitations[row].status == Pending
  }

  /** An edit of one pending invitation of the admin's workspace, which ends up as given. */
  predicate InvitationEdited(s: State, claims: Claims, row: nat, edit: Invitation -> Invitation, links: nat, s': State, reply: Reply) {
    match reply
    case Done =>
      && AdminAsks(s, claims) && PendingHere(s, claims, row)
      && s' == s.(invitations := s.invitations[row := edit(s.invitations[row])], secrets := s.secrets + links)
    case Refused(problem) =>
      s' == s && if problem == NotFound then AdminAsks(s, claims) && !PendingHere(s, claims, row)
                 else AdminTurnedAway(s, claims, problem)
    case _ => false
  }

  /** A new link, good for seven days; address, role and inviter stay. */
  predicate ResendInvitationAnswer(s: State, claims: Claims, row: nat, s': State, reply: Reply) {
    InvitationEdited(s, claims, row, (i: Invitation) => i.(secret := s.secrets, expiresAt := s.clock + 7 * DAY), 1, s', reply)
  }

  lemma ResendInvitationAnswers(s: State, claims: Claims, row: nat)
    requires Inv(s)
    ensures ResendInvitationAnswer(s, claims, row, DoResendInvitation(s, claims, row).0, DoResendInvitation(s, claims, row).1)
  {
    AdminAnswer(s, claims);
    hide AdminTurnedAway, AdminAsks, RequireAdmin;
  }

  /** Withdrawn, and otherwise as it was. */
  predicate RevokeInvitationAnswer(s: State, claims: Claims, row: nat, s': State, reply: Reply) {
    InvitationEdited(s, claims, row, (i: Invitation) => i.(status := Withdrawn), 0, s', reply)
  }

  lemma RevokeInvitationAnswers(s: State, claims: Claims, row: nat)
    requires Inv(s)
    ensures RevokeInvitationAnswer(s, claims, row, DoRevokeInvitation(s, claims, row).0, DoRevokeInvitation(s, claims, row).1)
  {
    AdminAnswer(s, claims);
    hide AdminTurnedAway, AdminAsks, RequireAdmin;
  }

  /** The invitation that carries the link. */
  predicate Carries(s: State, secret: nat, row: nat) {
    row < |s.invitations| && s.invitations[row].secret == secret
  }

  /** The row of the user in the workspace, deleted or not, becomes an active one with the role; without one it is added. */
  predicate MemberAdmitted(before: seq<Member>, after: seq<Member>, workspace: nat, user: nat, role: Role, now: Time) {
    var admitted := Member(workspace, user, role, Active, None, Some(now));
    && (if exists m | 0 <= m < |before| :: before[m].workspace == workspace && before[m].user == user
        then |after| == |before| else |after| == |before| + 1 && after[|before|] == admitted)
    && forall m | 0 <= m < |before| ::
         after[m] == if before[m].workspace == workspace && before[m].user == user then admitted else before[m]
  }

  /** An existing account is verified by accepting; without one a verified account is made. */
  predicate AccountAdmitted(s: State, email: string, s': State, user: nat) {
    if exists u | 0 <= u < |s.users| :: AccountOf(s, email, u)
    then AccountOf(s, email, user) && VerifiedNow(s.users, s'.users, user, s.clock)
    else user == |s.users| && s'.users == s.users + [User(email, true, Some(s.clock), false)]
  }

  /** The invitation is accepted by its account: what allows it, and what it changes. */
  predicate AcceptedWith(s: State, row: nat, valid: bool, s': State, claims: Claims, role: Role)
    requires row < |s.invitations|
  {
    var i := s.invitations[row];
    && i.status == Pending && s.clock <= i.expiresAt && claims.workspace == i.workspace && role == i.role
    && (forall u | 0 <= u < |s.users| && AccountOf(s, i.email, u) :: s.users[u].active)
    && (valid || exists u | 0 <= u < |s.users| :: AccountOf(s, i.email, u))
    && s' == s.(users := s'.users, members := s'.members, tokens := s'.tokens, families := s.families + 1,
                invitations := s.invitations[row := i.(status := Accepted)])
    && AccountAdmitted(s, i.email, s', claims.user)
    && MemberAdmitted(s.members, s'.members, i.workspace, claims.user, i.role, s.clock)
    && OldTokensKept(s.tokens, s'.tokens)
  }

  predicate AcceptInvitationAnswer(s: State, secret: nat, valid: bool, s': State, reply: Reply) {
    match reply
    case Session(_, claims, role) =>
      exists row: nat | row < |s.invitations| :: Carries(s, secret, row) && AcceptedWith(s, row, valid, s', claims, role)
    case Refused(problem) =>
      && s' == s
      && (if forall row | 0 <= row < |s.invitations| :: !Carries(s, secret, row) then problem == InvalidToken
          else exists row: nat | row < |s.invitations| :: Carries(s, secret, row) && Unacceptable(s, row, valid, problem))
    case Done => false
  }

  /** Why an invitation cannot be accepted. */
  predicate Unacceptable(s: State, row: nat, valid: bool, problem: Problem)
    requires row < |s.invitations|
  {
    var i := s.invitations[row];
    if s.clock > i.expiresAt then problem == TokenExpired
    else if i.status != Pending then problem == InvitationInactive
    else match problem
      case ValidationError => !valid && forall u | 0 <= u < |s.users| :: !AccountOf(s, i.email, u)
      case AccountInactive => exists u | 0 <= u < |s.users| :: AccountOf(s, i.email, u) && !s.users[u].active
      case _ => false
  }

  lemma InvitationIsFound(s: State, secret: nat, row: nat)
    requires PeopleOk(s)
    ensures Carries(s, secret, row) <==> FindInvitation(s, secret) == Some(row)
  {
    var found := FindInvitation(s, secret);
    if Carries(s, secret, row) {
      assert InvitationOk(s, row);
      assert found.value < row ==> DistinctInvitations(s, found.value, row);
    }
  }

  /** Admitting a member and recording the access at once. */
  lemma AdmissionIs(members: seq<Member>, workspace: nat, user: nat, role: Role, now: Time)
    requires forall m: nat, n: nat | m < n < |members| :: members[m].workspace != members[n].workspace || members[m].user != members[n].user
    ensures MemberAdmitted(members, Touch(AdmitMember(members, workspace, user, role), workspace, user, now), workspace, user, role, now)
  {
  }

  lemma AccountAdmission(s: State, s': State, email: string, user: nat)
    requires PeopleOk(s) && AdmitAccount(s, email).1 == user && s'.users == AdmitAccount(s, email).0.users
    ensures AccountAdmitted(s, email, s', user)
  {
    var found := FindUser(s.users, email);
    if found.Some? {
      assert AccountOf(s, email, found.value);
    }
  }

  /** What an acceptance changes, given the invitation it found. */
  lemma AcceptanceChanges(s: State, secret: nat, valid: bool, row: nat)
    requires Inv(s) && FindInvitation(s, secret) == Some(row) && DoAcceptInvitation(s, secret, valid).1.Session?
    ensures var (s', reply) := DoAcceptInvitation(s, secret, valid);
            var i := s.invitations[row];
            && i.status == Pending && s.clock <= i.expiresAt && reply.claims.workspace == i.workspace && reply.role == i.role
            && s' == s.(users := s'.users, members := s'.members, tokens := s'.tokens, families := s.families + 1,
                        invitations := s.invitations[row := i.(status := Accepted)])
            && AccountAdmitted(s, i.email, s', reply.claims.user)
            && MemberAdmitted(s.members, s'.members, i.workspace, reply.claims.user, i.role, s.clock)
            && OldTokensKept(s.tokens, s'.tokens)
  {
    var i := s.invitations[row];
    AccountAdmission(s, DoAcceptInvitation(s, secret, valid).0, i.email, AdmitAccount(s, i.email).1);
    forall m: nat, n: nat | m < n < |s.members|
      ensures s.members[m].workspace != s.members[n].workspace || s.members[m].user != s.members[n].user
    {
      assert DistinctMembers(s, m, n);
    }
    AdmissionIs(s.members, i.workspace, AdmitAccount(s, i.email).1, i.role, s.clock);
    hide AccountAdmitted, MemberAdmitted, AdmitMember, Touch, FindInvitation, FindUser, Inv;
  }

  /** Whether it is accepted, given the invitation it found. */
  lemma AcceptanceIsDecided(s: State, secret: nat, valid: bool, row: nat)
    requires Inv(s) && FindInvitation(s, secret) == Some(row)
    ensures match DoAcceptInvitation(s, secret, valid).1
            case Session(_, _, _) =>
              && (forall u | 0 <= u < |s.users| && AccountOf(s, s.invitations[row].email, u) :: s.users[u].active)
              && (valid || exists u | 0 <= u < |s.users| :: AccountOf(s, s.invitations[row].email, u))
            case Refused(problem) => DoAcceptInvitation(s, secret, valid).0 == s && Unacceptable(s, row, valid, problem)
            case Done => false
  {
    var email := s.invitations[row].email;
    forall u: nat ensures AccountOf(s, email, u) <==> FindUser(s.users, email) == Some(u) {
      AccountIsFound(s, email, u);
    }
    hide AdmitAccount, AdmitMember, OpenSession, FindInvitation, FindUser, Inv;
  }

  lemma AcceptInvitationAnswers(s: State, secret: nat, valid: bool)
    requires Inv(s)
    ensures AcceptInvitationAnswer(s, secret, valid, DoAcceptInvitation(s, secret, valid).0, DoAcceptInvitation(s, secret, valid).1)
  {
    var found := FindInvitation(s, secret);
    forall row: nat ensures Carries(s, secret, row) <==> found == Some(row) {
      InvitationIsFound(s, secret, row);
    }
    if found.Some? {
      AcceptanceIsDecided(s, secret, valid, found.value);
      if DoAcceptInvitation(s, secret, valid).1.Session? {
        AcceptanceChanges(s, secret, valid, found.value);
      }
      hide AccountAdmitted, MemberAdmitted, AccountOf, DoAcceptInvitation, FindInvitation, Inv, Unacceptable, OldTokensKept;
    }
  }

  // ---------- members ----------

  predicate MemberHere(s: State, claims: Claims, row: nat) {
    row < |s.members| && s.members[row].workspace == claims.workspace && s.members[row].deletedAt.None?
  }

  predicate LeadsWorkspace(m: Member, workspace: nat) {
    m.workspace == workspace && m.deletedAt.None? && m.role == Admin && m.status == Active
  }

  /** The row is an active admin, and no other in the workspace is. */
  predicate SoleAdmin(s: State, workspace: nat, row: nat) {
    && row < |s.members| && LeadsWorkspace(s.members[row], workspace)
    && forall m | 0 <= m < |s.members| && m != row :: !LeadsWorkspace(s.members[m], workspace)
  }

  lemma SoleAdminIff(s: State, workspace: nat, row: nat)
    requires row < |s.members| && s.members[row].workspace == workspace
    ensures SoleAdmin(s, workspace, row) <==> ActiveAdmin(s.members[row]) && CountActiveAdmins(s.members, workspace, row) == 0
  {
    CountFindsAdmin(s.members, workspace, row);
    assert forall m: Member :: LeadsWorkspace(m, workspace) <==> m.workspace == workspace && ActiveAdmin(m);
  }

  /** The fields given are set, every other stays. */
  predicate Edited(m: Member, m': Member, role: Option<Role>, status: Option<MemberStatus>) {
    && m' == m.(role := m'.role, status := m'.status)
    && m'.role == (match role case None => m.role case Some(r) => r)
    && m'.status == (match status case None => m.status case Some(x) => x)
  }

  predicate UpdateMemberAnswer(s: State, claims: Claims, row: nat, role: Option<Role>, status: Option<MemberStatus>,
                               s': State, reply: Reply)
  {
    match reply
    case Done =>
      && AdminAsks(s, claims) && (role.Some? || status.Some?) && MemberHere(s, claims, row) && row < |s'.members|
      && var m, m' := s.members[row], s'.members[row];
         && Edited(m, m', role, status) && (SoleAdmin(s, claims.workspace, row) ==> m'.role == Admin && m'.status == Active)
         && s' == s.(members := s.members[row := m'], tokens := s'.tokens)
         && (m'.status == Active ==> s'.tokens == s.tokens)
         && (m'.status != Active ==> MemberLoggedOut(s.tokens, s'.tokens, claims.workspace, m.user, s.clock))
    case Refused(problem) =>
      && s' == s
      && (match problem
          case ValidationError => AdminAsks(s, claims) && role.None? && status.None?
          case NotFound => AdminAsks(s, claims) && (role.Some? || status.Some?) && !MemberHere(s, claims, row)
          case LastAdmin =>
            && AdminAsks(s, claims) && SoleAdmin(s, claims.workspace, row)
            && ((role.Some? && role.value != Admin) || (status.Some? && status.value != Active))
          case _ => AdminTurnedAway(s, claims, problem))
    case _ => false
  }

  lemma UpdateMemberChanges(s: State, claims: Claims, row: nat, role: Option<Role>, status: Option<MemberStatus>)
    requires DoUpdateMember(s, claims, row, role, status).1.Done?
    ensures var s' := DoUpdateMember(s, claims, row, role, status).0;
            && row < |s.members| && row < |s'.members| && Edited(s.members[row], s'.members[row], role, status)
            && s' == s.(members := s.members[row := s'.members[row]], tokens := s'.tokens)
            && (s'.members[row].status == Active ==> s'.tokens == s.tokens)
            && (s'.members[row].status != Active ==>
                  MemberLoggedOut(s.tokens, s'.tokens, claims.workspace, s.members[row].user, s.clock))
  {
    hide RequireAdmin, CountActiveAdmins, MemberLoggedOut;
    LogsOut(s.tokens, claims.workspace, if row < |s.members| then s.members[row].user else 0, s.clock);
  }

  lemma UpdateMemberAnswers(s: State, claims: Claims, row: nat, role: Option<Role>, status: Option<MemberStatus>)
    requires Inv(s)
    ensures UpdateMemberAnswer(s, claims, row, role, status, DoUpdateMember(s, claims, row, role, status).0,
                               DoUpdateMember(s, claims, row, role, status).1)
  {
    AdminAnswer(s, claims);
    if DoUpdateMember(s, claims, row, role, status).1.Done? {
      UpdateMemberChanges(s, claims, row, role, status);
    }
    if MemberHere(s, claims, row) {
      SoleAdminIff(s, claims.workspace, row);
      SoleAdminLeads(s, claims.workspace, row);
    }
    hide AdminTurnedAway, AdminAsks, RequireAdmin, SoleAdmin, CountActiveAdmins, Inv, MemberLoggedOut, Revoke;
  }

  lemma SoleAdminLeads(s: State, workspace: nat, row: nat)
    requires row < |s.members|
    ensures SoleAdmin(s, workspace, row) ==> s.members[row].role == Admin && s.members[row].status == Active
  {
  }

  lemma LogsOut(tokens: seq<Token>, workspace: nat, user: nat, now: Time)
    ensures MemberLoggedOut(tokens, Revoke(tokens, OfMember(workspace, user), now), workspace, user, now)
  {
  }

  predicate RemoveMemberAnswer(s: State, claims: Claims, row: nat, s': State, reply: Reply) {
    match reply
    case Done =>
      && AdminAsks(s, claims) && MemberHere(s, claims, row) && !SoleAdmin(s, claims.workspace, row)
      && s' == s.(members := s.members[row := s.members[row].(deletedAt := Some(s.clock))], tokens := s'.tokens)
      && MemberLoggedOut(s.tokens, s'.tokens, claims.workspace, s.members[row].user, s.clock)
    case Refused(problem) =>
      && s' == s
      && (match problem
          case NotFound => AdminAsks(s, claims) && !MemberHere(s, claims, row)
          case LastAdmin => AdminAsks(s, claims) && SoleAdmin(s, claims.workspace, row)
          case _ => AdminTurnedAway(s, claims, problem))
    case _ => false
  }

  lemma RemoveMemberAnswers(s: State, claims: Claims, row: nat)
    requires Inv(s)
    ensures RemoveMemberAnswer(s, claims, row, DoRemoveMember(s, claims, row).0, DoRemoveMember(s, claims, row).1)
  {
    AdminAnswer(s, claims);
    if MemberHere(s, claims, row) {
      SoleAdminIff(s, claims.workspace, row);
    }
    hide AdminTurnedAway, AdminAsks, RequireAdmin, SoleAdmin, CountActiveAdmins, Inv, MemberLoggedOut;
    LogsOut(s.tokens, claims.workspace, if row < |s.members| then s.members[row].user else 0, s.clock);
  }

  // ---------- every request ----------

  /** The clock advances, or the one column is edited; nothing else happens. */
  predicate EnvironmentAnswer(s: State, r: Request, s': State) {
    match r
    case Tick(elapsed) => s' == s.(clock := s.clock + elapsed)
    case SetAccountActive(user, active) =>
      s' == if user < |s.users| then s.(users := s.users[user := s.users[user].(active := active)]) else s
    case DeleteAccount(user) =>
      s' == if user < |s.users| then s.(users := s.users[user := s.users[user].(deleted := true)]) else s
    case DeleteWorkspace(w) =>
      s' == if w < |s.workspaces| then s.(workspaces := s.workspaces[w := s.workspaces[w].(deleted := true)]) else s
    case _ => false
  }

  ghost predicate Answered(s: State, r: Request, s': State, reply: Reply) {
    match r
    case Register(email) => RegisterAnswer(s, email, s', reply)
    case VerifyEmail(row) => VerifyEmailAnswer(s, row, s', reply)
    case ResendVerification(email) => ResendVerificationAnswer(s, email, s', reply)
    case Login(email, matches, _) => LoginAnswer(s, email, matches, s', reply)
    case Refresh(row) => RefreshAnswer(s, row, s', reply)
    case Logout(claims) => LogoutAnswer(s, claims, s', reply)
    case SwitchWorkspace(claims, workspace) => SwitchAnswer(s, claims, workspace, s', reply)
    case CreateInvitation(claims, email, role) => CreateInvitationAnswer(s, claims, email, role, s', reply)
    case ResendInvitation(claims, row) => ResendInvitationAnswer(s, claims, row, s', reply)
    case RevokeInvitation(claims, row) => RevokeInvitationAnswer(s, claims, row, s', reply)
    case AcceptInvitation(secret, valid) => AcceptInvitationAnswer(s, secret, valid, s', reply)
    case UpdateMember(claims, row, role, status) => UpdateMemberAnswer(s, claims, row, role, status, s', reply)
    case RemoveMember(claims, row) => RemoveMemberAnswer(s, claims, row, s', reply)
    case _ => EnvironmentAnswer(s, r, s')
  }

  /** In every state that meets the invariants every request gets exactly its answer, and a session it opens has exactly its
      token. */
  lemma EveryRequestIsAnswered(s: State, r: Request)
    requires Inv(s)
    ensures Answered(s, r, Step(s, r).0, Step(s, r).1)
    ensures Step(s, r).1.Session? ==> TokenAsReplied(s, r, Step(s, r).0, Step(s, r).1)
  {
    hide Inv, TokenAsReplied, EnvironmentAnswer, RegisterAnswer, VerifyEmailAnswer, ResendVerificationAnswer,
      LoginAnswer, RefreshAnswer, LogoutAnswer, SwitchAnswer, CreateInvitationAnswer, ResendInvitationAnswer,
      RevokeInvitationAnswer, AcceptInvitationAnswer, UpdateMemberAnswer, RemoveMemberAnswer, DoRegister,
      DoVerifyEmail, DoResendVerification, DoLogin, DoRefresh, DoLogout, DoSwitchWorkspace, DoCreateInvitation,
      DoResendInvitation, DoRevokeInvitation, DoAcceptInvitation, DoUpdateMember, DoRemoveMember;
    if Step(s, r).1.Session? {
      OpenedTokenIsAsReplied(s, r);
    }
    match r
    case Register(email) => RegisterAnswers(s, email);
    case VerifyEmail(row) => VerifyEmailAnswers(s, row);
    case ResendVerification(email) => ResendVerificationAnswers(s, email);
    case Login(email, matches, remember) => LoginAnswers(s, email, matches, remember);
    case Refresh(row) => RefreshAnswers(s, row);
    case Logout(claims) => LogoutAnswers(s, claims);
    case SwitchWorkspace(claims, workspace) => SwitchAnswers(s, claims, workspace);
    case CreateInvitation(claims, email, role) => CreateInvitationAnswers(s, claims, email, role);
    case ResendInvitation(claims, row) => ResendInvitationAnswers(s, claims, row);
    case RevokeInvitation(claims, row) => RevokeInvitationAnswers(s, claims, row);
    case AcceptInvitation(secret, valid) => AcceptInvitationAnswers(s, secret, valid);
    case UpdateMember(claims, row, role, status) => UpdateMemberAnswers(s, claims, row, role, status);
    case RemoveMember(claims, row) => RemoveMemberAnswers(s, claims, row);
    case _ => EnvironmentAnswers(s, r);
  }

  lemma EnvironmentAnswers(s: State, r: Request)
    requires r.Tick? || r.SetAccountActive? || r.DeleteAccount? || r.DeleteWorkspace?
    ensures EnvironmentAnswer(s, r, Step(s, r).0)
  {
  }
}
