// The handlers of the auth component as transitions of one state.
// Every handler's transaction is one atomic step under a single clock.
module AuthProtocol {
  import opened Wrappers
  import opened Tables
  import opened AuthTables

  datatype State = State(clock: Time, users: seq<User>, workspaces: seq<Workspace>, members: seq<Member>,
                         invitations: seq<Invitation>, verifications: seq<Verification>, tokens: seq<Token>,
                         families: nat, secrets: nat)

  const INIT := State(0, [], [], [], [], [], [], 0, 0)

  // What an access token carries.
  datatype Claims = Claims(user: nat, workspace: nat, family: nat)

  datatype Problem =
    | ValidationError | EmailInUse | InvalidToken | TokenExpired | InvalidCredentials
    | EmailVerificationRequired | MembershipInactive | RefreshAlreadyRotated | RefreshReuseDetected
    | AlreadyMember | InvitationPending | InvitationInactive | AccountInactive | NotFound | Forbidden | LastAdmin

  datatype Reply = Done | Session(token: nat, claims: Claims, role: Role) | Refused(problem: Problem)

  datatype Request =
    | Register(email: string)
    | VerifyEmail(verification: nat)
    | ResendVerification(email: string)
    | Login(email: string, passwordMatches: bool, remember: bool)
    | Refresh(token: nat)
    | Logout(claims: Claims)
    | SwitchWorkspace(claims: Claims, workspace: nat)
    | CreateInvitation(claims: Claims, email: string, role: Role)
    | ResendInvitation(claims: Claims, invitation: nat)
    | RevokeInvitation(claims: Claims, invitation: nat)
    | AcceptInvitation(secret: nat, profileValid: bool)
    | UpdateMember(claims: Claims, member: nat, newRole: Option<Role>, newStatus: Option<MemberStatus>)
    | RemoveMember(claims: Claims, member: nat)
    // The clock, and edits of columns that the handlers read but never write.
    | Tick(elapsed: nat)
    | SetAccountActive(user: nat, active: bool)
    | DeleteAccount(user: nat)
    | DeleteWorkspace(workspace: nat)

  // ---------- who is asking ----------

  predicate UsableAccount(s: State, user: nat) {
    user < |s.users| && s.users[user].active && !s.users[user].deleted && s.users[user].verifiedAt.Some?
  }

  predicate UsableWorkspace(s: State, workspace: nat) {
    workspace < |s.workspaces| && !s.workspaces[workspace].deleted
  }

  /** The active membership that a session of this user and workspace may act under. */
  function ActiveMembership(s: State, workspace: nat, user: nat): Option<nat> {
    match FindMember(s.members, workspace, user)
    case Some(m) =>
      if s.members[m].status == Active && UsableAccount(s, user) && UsableWorkspace(s, workspace) then Some(m) else None
    case None => None
  }

  predicate KeepsFamilyAlive(t: Token, claims: Claims, now: Time) {
    t.family == claims.family && t.user == claims.user && t.workspace == claims.workspace
    && t.revokedAt.None? && t.expiresAt > now
  }

  function Authenticate(s: State, claims: Claims): Reply {
    match ActiveMembership(s, claims.workspace, claims.user)
    case None => Refused(MembershipInactive)
    case Some(m) =>
      match FindFirst(s.tokens, (t: Token) => KeepsFamilyAlive(t, claims, s.clock))
      case None => Refused(InvalidToken)
      case Some(t) => Session(t, claims, s.members[m].role)
  }

  function RequireAdmin(s: State, claims: Claims): Reply {
    var who := Authenticate(s, claims);
    if who.Session? && who.role != Admin then Refused(Forbidden) else who
  }

  // ---------- sessions ----------

  datatype RefreshState = RefreshActive | RefreshExpired | RefreshWithinGrace | RefreshReused

  function ClassifyRefresh(t: Token, now: Time): RefreshState {
    if t.expiresAt < now then RefreshExpired
    else if t.revokedAt.None? && t.replacedBy.None? then RefreshActive
    else if t.replacedBy.Some? && t.revokedAt.Some? && now - t.revokedAt.value <= REFRESH_REUSE_GRACE
    then RefreshWithinGrace
    else RefreshReused
  }

  function IssueSession(s: State, user: nat, workspace: nat, remember: bool, family: nat): State {
    s.(tokens := s.tokens + [NewToken(user, workspace, family, remember, s.clock)],
    members := Touch(s.members, workspace, user, s.clock))
  }

  /** A session in a family of its own. */
  function OpenSession(s: State, user: nat, workspace: nat, remember: bool): State {
    IssueSession(s, user, workspace, remember, s.families).(families := s.families + 1)
  }

  function DoRegister(s: State, email: string): (State, Reply) {
    if FindUser(s.users, email).Some? then (s, Refused(EmailInUse))
    else
      var user, workspace := |s.users|, |s.workspaces|;
      (s.(users := s.users + [User(email, true, None, false)],
       workspaces := s.workspaces + [Workspace(user, false)],
       members := s.members + [Member(workspace, user, Admin, Active, None, None)],
       verifications := s.verifications + [Verification(user, workspace, s.clock + VERIFICATION_TTL, None, None)]),
       Done)
  }

  function DoVerifyEmail(s: State, row: nat): (State, Reply) {
    if row >= |s.verifications| then (s, Refused(InvalidToken))
    else
      var v := s.verifications[row];
      var membership := FindRow(s.members, v.workspace, v.user);
      if v.user >= |s.users| || v.workspace >= |s.workspaces| || membership.None? then (s, Refused(InvalidToken))
      else if v.expiresAt < s.clock then (s, Refused(TokenExpired))
      else if !Outstanding(v) then (s, Refused(InvalidToken))
      else
        var s1 := s.(users := MarkVerified(s.users, v.user, s.clock),
                     verifications := RevokeVerifications(
                       s.verifications[row := v.(consumedAt := Some(s.clock))], v.user, s.clock));
        (OpenSession(s1, v.user, v.workspace, false),
         Session(|s.tokens|, Claims(v.user, v.workspace, s.families), s.members[membership.value].role))
  }

  /** SET email_verified_at = COALESCE(email_verified_at, now()) */
  function MarkVerified(users: seq<User>, user: nat, now: Time): seq<User>
    requires user < |users|
  {
    if users[user].verifiedAt.Some? then users else users[user := users[user].(verifiedAt := Some(now))]
  }

  function DoResendVerification(s: State, email: string): (State, Reply) {
    match FindUser(s.users, email)
    case None => (s, Done)
    case Some(user) =>
      if s.users[user].verifiedAt.Some? || !s.users[user].active then (s, Done)
      else
        match FindFirst(s.members, (m: Member) => m.user == user && LiveMember(m))
        case None => (s, Done)
        case Some(m) =>
          var v := Verification(user, s.members[m].workspace, s.clock + VERIFICATION_TTL, None, None);
          (s.(verifications := RevokeVerifications(s.verifications, user, s.clock) + [v]), Done)
  }

  predicate LoginCandidate(s: State, user: nat, m: Member) {
    m.user == user && LiveMember(m) && m.status == Active && UsableWorkspace(s, m.workspace)
  }

  /** The membership a login lands in, among the first n rows: most recently accessed, then oldest. */
  function PreferredMembership(s: State, user: nat, n: nat): (best: Option<nat>)
    requires n <= |s.members|
    ensures best.Some? ==> best.value < n && LoginCandidate(s, user, s.members[best.value])
    ensures forall i | 0 <= i < n && LoginCandidate(s, user, s.members[i]) ::
              best.Some? && !MoreRecent(s.members[i], s.members[best.value])
              && (i < best.value ==> MoreRecent(s.members[best.value], s.members[i]))
  {
    if n == 0 then None
    else
      var best := PreferredMembership(s, user, n - 1);
      if LoginCandidate(s, user, s.members[n - 1])
         && (best.None? || MoreRecent(s.members[n - 1], s.members[best.value])) then Some(n - 1)
      else best
  }

  function DoLogin(s: State, email: string, passwordMatches: bool, remember: bool): (State, Reply) {
    match FindUser(s.users, email)
    case None => (s, Refused(InvalidCredentials))
    case Some(user) =>
      if !passwordMatches || !s.users[user].active then (s, Refused(InvalidCredentials))
      else if s.users[user].verifiedAt.None? then (s, Refused(EmailVerificationRequired))
      else
        match PreferredMembership(s, user, |s.members|)
        case None => (s, Refused(MembershipInactive))
        case Some(m) =>
          var workspace := s.members[m].workspace;
          (OpenSession(s, user, workspace, remember),
           Session(|s.tokens|, Claims(user, workspace, s.families), s.members[m].role))
  }

  function DoRefresh(s: State, row: nat): (State, Reply) {
    if row >= |s.tokens| then (s, Refused(InvalidToken))
    else
      var t := s.tokens[row];
      match ClassifyRefresh(t, s.clock)
      case RefreshExpired => (s.(tokens := Revoke(s.tokens, OfRow(row), s.clock)), Refused(TokenExpired))
      case RefreshWithinGrace => (s, Refused(RefreshAlreadyRotated))
      case RefreshReused => (s.(tokens := Revoke(s.tokens, OfFamily(t.family), s.clock)), Refused(RefreshReuseDetected))
      case RefreshActive =>
        match ActiveMembership(s, t.workspace, t.user)
        case None => (s, Refused(MembershipInactive))
        case Some(m) =>
          var issued := IssueSession(s, t.user, t.workspace, t.remember, t.family);
          (issued.(tokens := Replace(issued.tokens, row, |s.tokens|, s.clock)),
           Session(|s.tokens|, Claims(t.user, t.workspace, t.family), s.members[m].role))
  }

  function DoLogout(s: State, claims: Claims): (State, Reply) {
    var who := Authenticate(s, claims);
    if who.Refused? then (s, who)
    else (s.(tokens := Revoke(s.tokens, OfFamily(claims.family), s.clock)), Done)
  }

  function DoSwitchWorkspace(s: State, claims: Claims, workspace: nat): (State, Reply) {
    var who := Authenticate(s, claims);
    if who.Refused? then (s, who)
    else
      match ActiveMembership(s, workspace, claims.user)
      case None => (s, Refused(MembershipInactive))
      case Some(m) =>
        var remember := FamilyRemembers(s.tokens, claims.family);
        var s1 := s.(tokens := Revoke(s.tokens, OfFamily(claims.family), s.clock));
        (OpenSession(s1, claims.user, workspace, remember),
         Session(|s.tokens|, Claims(claims.user, workspace, s.families), s.members[m].role))
  }

  // ---------- invitations ----------

  predicate MemberWithEmail(s: State, m: Member, workspace: nat, email: string) {
    m.workspace == workspace && LiveMember(m) && m.user < |s.users| && s.users[m.user].email == email
  }

  predicate PendingFor(i: Invitation, workspace: nat, email: string) {
    i.status == Pending && i.workspace == workspace && i.email == email
  }

  function DoCreateInvitation(s: State, claims: Claims, email: string, role: Role): (State, Reply) {
    var who := RequireAdmin(s, claims);
    if who.Refused? then (s, who)
    else if FindFirst(s.members, (m: Member) => MemberWithEmail(s, m, claims.workspace, email)).Some? then
      (s, Refused(AlreadyMember))
    else if FindFirst(s.invitations, (i: Invitation) => PendingFor(i, claims.workspace, email)).Some? then
      (s, Refused(InvitationPending))
    else
      var i := Invitation(claims.workspace, email, role, s.secrets, Pending, claims.user, s.clock + INVITATION_TTL);
      (s.(invitations := s.invitations + [i], secrets := s.secrets + 1), Done)
  }

  predicate PendingIn(s: State, row: nat, workspace: nat) {
    row < |s.invitations| && s.invitations[row].workspace == workspace && s.invitations[row].status == Pending
  }

  function DoResendInvitation(s: State, claims: Claims, row: nat): (State, Reply) {
    var who := RequireAdmin(s, claims);
    if who.Refused? then (s, who)
    else if !PendingIn(s, row, claims.workspace) then (s, Refused(NotFound))
    else
      var i := s.invitations[row].(secret := s.secrets, expiresAt := s.clock + INVITATION_TTL);
      (s.(invitations := s.invitations[row := i], secrets := s.secrets + 1), Done)
  }

  function DoRevokeInvitation(s: State, claims: Claims, row: nat): (State, Reply) {
    var who := RequireAdmin(s, claims);
    if who.Refused? then (s, who)
    else if !PendingIn(s, row, claims.workspace) then (s, Refused(NotFound))
    else (s.(invitations := s.invitations[row := s.invitations[row].(status := Withdrawn)]), Done)
  }

  function FindInvitation(s: State, secret: nat): Option<nat> {
    FindFirst(s.invitations, (i: Invitation) => i.secret == secret && i.workspace < |s.workspaces|)
  }

  /** The account an invitation is accepted by: the existing one, now verified, or a new verified one. */
  function AdmitAccount(s: State, email: string): (State, nat) {
    match FindUser(s.users, email)
    case Some(user) => (s.(users := MarkVerified(s.users, user, s.clock)), user)
    case None => (s.(users := s.users + [User(email, true, Some(s.clock), false)]), |s.users|)
  }

  /** Insert the membership, or overwrite the row that the user already has. */
  function AdmitMember(members: seq<Member>, workspace: nat, user: nat, role: Role): seq<Member> {
    match FindRow(members, workspace, user)
    case None => members + [Member(workspace, user, role, Active, None, None)]
    case Some(m) => members[m := members[m].(role := role, status := Active, deletedAt := None)]
  }

  function DoAcceptInvitation(s: State, secret: nat, profileValid: bool): (State, Reply) {
    match FindInvitation(s, secret)
    case None => (s, Refused(InvalidToken))
    case Some(row) =>
      var i := s.invitations[row];
      var account := FindUser(s.users, i.email);
      if i.expiresAt < s.clock then (s, Refused(TokenExpired))
      else if i.status != Pending then (s, Refused(InvitationInactive))
      else if account.None? && !profileValid then (s, Refused(ValidationError))
      else if account.Some? && !s.users[account.value].active then (s, Refused(AccountInactive))
      else
        var (s1, user) := AdmitAccount(s, i.email);
        var s2 := s1.(members := AdmitMember(s1.members, i.workspace, user, i.role),
                      invitations := s1.invitations[row := i.(status := Accepted)]);
        (OpenSession(s2, user, i.workspace, false),
         Session(|s.tokens|, Claims(user, i.workspace, s.families), i.role))
  }

  // ---------- members ----------

  predicate MemberIn(s: State, row: nat, workspace: nat) {
    row < |s.members| && s.members[row].workspace == workspace && LiveMember(s.members[row])
  }

  function DoUpdateMember(s: State, claims: Claims, row: nat, newRole: Option<Role>, newStatus: Option<MemberStatus>)
    : (State, Reply)
  {
    var who := RequireAdmin(s, claims);
    if who.Refused? then (s, who)
    else if newRole.None? && newStatus.None? then (s, Refused(ValidationError))
    else if !MemberIn(s, row, claims.workspace) then (s, Refused(NotFound))
    else
      var target := s.members[row];
      var role := if newRole.Some? then newRole.value else target.role;
      var status := if newStatus.Some? then newStatus.value else target.status;
      if ActiveAdmin(target) && (role != Admin || status != Active)
         && CountActiveAdmins(s.members, claims.workspace, row) == 0 then (s, Refused(LastAdmin))
      else
        var s1 := s.(members := s.members[row := target.(role := role, status := status)]);
        if status != Active then
          (s1.(tokens := Revoke(s.tokens, OfMember(claims.workspace, target.user), s.clock)), Done)
        else (s1, Done)
  }

  function DoRemoveMember(s: State, claims: Claims, row: nat): (State, Reply) {
    var who := RequireAdmin(s, claims);
    if who.Refused? then (s, who)
    else if !MemberIn(s, row, claims.workspace) then (s, Refused(NotFound))
    else
      var target := s.members[row];
      if ActiveAdmin(target) && CountActiveAdmins(s.members, claims.workspace, row) == 0 then (s, Refused(LastAdmin))
      else
        (s.(members := s.members[row := target.(deletedAt := Some(s.clock))],
         tokens := Revoke(s.tokens, OfMember(claims.workspace, target.user), s.clock)), Done)
  }

  // ---------- the environment ----------

  function DoSetAccountActive(s: State, user: nat, active: bool): (State, Reply) {
    if user < |s.users| then (s.(users := s.users[user := s.users[user].(active := active)]), Done)
    else (s, Refused(NotFound))
  }

  function DoDeleteAccount(s: State, user: nat): (State, Reply) {
    if user < |s.users| then (s.(users := s.users[user := s.users[user].(deleted := true)]), Done)
    else (s, Refused(NotFound))
  }

  function DoDeleteWorkspace(s: State, workspace: nat): (State, Reply) {
    if workspace < |s.workspaces| then
      (s.(workspaces := s.workspaces[workspace := s.workspaces[workspace].(deleted := true)]), Done)
    else (s, Refused(NotFound))
  }

  // ---------- runs ----------

  function Step(s: State, r: Request): (State, Reply) {
    match r
    case Register(email) => DoRegister(s, email)
    case VerifyEmail(row) => DoVerifyEmail(s, row)
    case ResendVerification(email) => DoResendVerification(s, email)
    case Login(email, matches, remember) => DoLogin(s, email, matches, remember)
    case Refresh(row) => DoRefresh(s, row)
    case Logout(claims) => DoLogout(s, claims)
    case SwitchWorkspace(claims, workspace) => DoSwitchWorkspace(s, claims, workspace)
    case CreateInvitation(claims, email, role) => DoCreateInvitation(s, claims, email, role)
    case ResendInvitation(claims, row) => DoResendInvitation(s, claims, row)
    case RevokeInvitation(claims, row) => DoRevokeInvitation(s, claims, row)
    case AcceptInvitation(secret, valid) => DoAcceptInvitation(s, secret, valid)
    case UpdateMember(claims, row, role, status) => DoUpdateMember(s, claims, row, role, status)
    case RemoveMember(claims, row) => DoRemoveMember(s, claims, row)
    case Tick(elapsed) => (s.(clock := s.clock + elapsed), Done)
    case SetAccountActive(user, active) => DoSetAccountActive(s, user, active)
    case DeleteAccount(user) => DoDeleteAccount(s, user)
    case DeleteWorkspace(workspace) => DoDeleteWorkspace(s, workspace)
  }

  function After(s: State, r: Request): State {
    Step(s, r).0
  }

  /** The state after a run of requests. */
  function Run(s: State, requests: seq<Request>): State {
    if requests == [] then s
    else
      var last := |requests| - 1;
      After(Run(s, requests[..last]), requests[last])
  }
}
