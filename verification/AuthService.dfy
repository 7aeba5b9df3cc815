// The auth handlers as they run, statement by statement over the mutable tables. Every handler is proved to be its
// transition, to keep the invariants, to undo nothing final, and to follow its rule.
module AuthService {
  import opened Wrappers
  import opened Tables
  import opened AuthTables
  import opened TokenFamilies
  import opened AuthProtocol
  import opened AuthInvariants
  import opened AuthRuns
  import opened AuthTheorems
  import opened AuthSessions
  import opened AuthRules
  import opened AuthAnswers

  class AuthStore {
    var clock: Time
    var users: seq<User>
    var workspaces: seq<Workspace>
    var members: seq<Member>
    var invitations: seq<Invitation>
    var verifications: seq<Verification>
    var tokens: seq<Token>
    var families: nat
    var secrets: nat

    function Snapshot(): State
      reads this
    {
      State(clock, users, workspaces, members, invitations, verifications, tokens, families, secrets)
    }

    ghost predicate Valid()
      reads this
    {
      Inv(Snapshot())
    }

    constructor ()
      ensures Snapshot() == INIT && Valid()
    {
      clock, families, secrets := 0, 0, 0;
      users, workspaces, members, invitations, verifications, tokens := [], [], [], [], [], [];
    }

    // ---------- statements ----------

    method SelectUser(email: string) returns (found: Option<nat>)
      ensures found == FindUser(users, email)
    {
      found := SelectFirst(users, (u: User) => u.email == email && !u.deleted);
    }

    method SelectActiveMembership(workspace: nat, user: nat) returns (found: Option<nat>)
      ensures found == ActiveMembership(Snapshot(), workspace, user)
    {
      found := SelectFirst(members, (m: Member) => m.workspace == workspace && m.user == user && LiveMember(m));
      if found.Some? && !(members[found.value].status == Active && UsableAccount(Snapshot(), user)
                          && UsableWorkspace(Snapshot(), workspace)) {
        found := None;
      }
    }

    /** SELECT ... ORDER BY last_accessed_at DESC NULLS LAST, created_at LIMIT 1: one pass, keeping the best row so far. */
    method SelectPreferred(user: nat) returns (best: Option<nat>)
      ensures best == PreferredMembership(Snapshot(), user, |members|)
    {
      best := None;
      for i := 0 to |members|
        invariant best == PreferredMembership(Snapshot(), user, i)
      {
        if LoginCandidate(Snapshot(), user, members[i]) {
          if best.None? || MoreRecent(members[i], members[best.value]) {
            best := Some(i);
          }
        }
      }
    }

    /** SELECT count(*) of the other active admins: none exactly when the excluded row is the only one. */
    method CountOtherAdmins(workspace: nat, excluded: nat) returns (count: nat)
      ensures count == CountActiveAdmins(members, workspace, excluded)
      ensures count == 0 <==> OnlyAdmin(Snapshot(), workspace, excluded)
    {
      count := 0;
      for i := 0 to |members|
        invariant count == CountActiveAdmins(members[..i], workspace, excluded)
      {
        assert members[..i + 1][..i] == members[..i];
        if i != excluded && members[i].workspace == workspace && ActiveAdmin(members[i]) {
          count := count + 1;
        }
      }
      assert members[..|members|] == members;
      CountFindsAdmin(members, workspace, excluded);
    }

    /** SELECT COALESCE(bool_or(remember_me), false) */
    method AnyRemembers(family: nat) returns (remember: bool)
      ensures remember == FamilyRemembers(tokens, family)
    {
      remember := false;
      for i := 0 to |tokens|
        invariant remember == exists k | 0 <= k < i :: tokens[k].family == family && tokens[k].remember
      {
        remember := remember || (tokens[i].family == family && tokens[i].remember);
      }
    }

    method RevokeTokens(which: Selector)
      modifies `tokens
      ensures tokens == Revoke(old(tokens), which, clock)
    {
      var now := clock;
      tokens := UpdateWhere(tokens, (i: nat, t: Token) => Selects(which, i, t),
                            (t: Token) => if t.revokedAt.None? then t.(revokedAt := Some(now)) else t);
    }

    method RevokeLinks(user: nat)
      modifies `verifications
      ensures verifications == RevokeVerifications(old(verifications), user, clock)
    {
      var now := clock;
      verifications := UpdateWhere(verifications, (_: nat, v: Verification) => v.user == user && Outstanding(v),
                                   (v: Verification) => v.(revokedAt := Some(now)));
    }

    method TouchMembership(workspace: nat, user: nat)
      modifies `members
      ensures members == Touch(old(members), workspace, user, clock)
    {
      var now := clock;
      members := UpdateWhere(members, (_: nat, m: Member) => m.workspace == workspace && m.user == user && LiveMember(m),
                             (m: Member) => m.(lastAccessedAt := Some(now)));
    }

    // ---------- who is asking ----------

    method CheckClaims(claims: Claims) returns (who: Reply)
      ensures who == Authenticate(Snapshot(), claims)
    {
      var membership := SelectActiveMembership(claims.workspace, claims.user);
      if membership.None? {
        return Refused(MembershipInactive);
      }
      var now := clock;
      var alive := SelectFirst(tokens, (t: Token) => KeepsFamilyAlive(t, claims, now));
      if alive.None? {
        return Refused(InvalidToken);
      }
      who := Session(alive.value, claims, members[membership.value].role);
    }

    method CheckAdmin(claims: Claims) returns (who: Reply)
      ensures who == RequireAdmin(Snapshot(), claims)
    {
      who := CheckClaims(claims);
      if who.Session? && who.role != Admin {
        who := Refused(Forbidden);
      }
    }

    // ---------- sessions ----------

    /** The new token keeps its family alive for these claims, which are then accepted exactly from an active member;
        nobody's standing changes, and no other token. */
    method IssueSession(user: nat, workspace: nat, remember: bool, family: nat) returns (token: nat)
      modifies `tokens, `members
      ensures Snapshot() == AuthProtocol.IssueSession(old(Snapshot()), user, workspace, remember, family)
      ensures token == |old(tokens)| == |tokens| - 1 && tokens[..token] == old(tokens)
      ensures KeepsFamilyAlive(tokens[token], Claims(user, workspace, family), clock)
      ensures KeepsStanding(old(Snapshot()), Snapshot())
      ensures Authenticate(Snapshot(), Claims(user, workspace, family)).Session?
              <==> ActiveMembership(old(Snapshot()), workspace, user).Some?
    {
      ghost var before := Snapshot();
      token := |tokens|;
      tokens := tokens + [Token(user, workspace, family, remember, clock + Ttl(remember), None, None)];
      TouchMembership(workspace, user);
      IssuedIsUsableByMembers(before, user, workspace, remember, family);
    }

    /** Draw a family id that no session has used, and open a session in it. */
    method OpenSession(user: nat, workspace: nat, remember: bool, role: Role) returns (reply: Reply)
      modifies `tokens, `members, `families
      ensures Snapshot() == AuthProtocol.OpenSession(old(Snapshot()), user, workspace, remember)
      ensures reply == Session(|old(tokens)|, Claims(user, workspace, old(families)), role)
    {
      var family := families;
      families := families + 1;
      var token := IssueSession(user, workspace, remember, family);
      reply := Session(token, Claims(user, workspace, family), role);
    }

    method Register(email: string) returns (reply: Reply)
      requires Valid()
      modifies this
      ensures Valid() && StateLater(old(Snapshot()), Snapshot())
      ensures (Snapshot(), reply) == DoRegister(old(Snapshot()), email)
      ensures RegisterRule(old(Snapshot()), email, Snapshot(), reply)
      ensures RegisterAnswer(old(Snapshot()), email, Snapshot(), reply)
    {
      hide Inv, StateLater, RegisterRule, RegisterAnswer;
      RegisterIsSound(Snapshot(), email);
      RegisterFollowsRule(Snapshot(), email);
      RegisterAnswers(Snapshot(), email);
      var found := SelectUser(email);
      if found.Some? {
        return Refused(EmailInUse);
      }
      var user := |users|;
      users := users + [User(email, true, None, false)];
      var workspace := |workspaces|;
      workspaces := workspaces + [Workspace(user, false)];
      members := members + [Member(workspace, user, Admin, Active, None, None)];
      verifications := verifications + [Verification(user, workspace, clock + VERIFICATION_TTL, None, None)];
      reply := Done;
    }

    method VerifyEmail(row: nat) returns (reply: Reply)
      requires Valid()
      modifies this
      ensures Valid() && StateLater(old(Snapshot()), Snapshot())
      ensures (Snapshot(), reply) == DoVerifyEmail(old(Snapshot()), row)
      ensures VerifyEmailRule(old(Snapshot()), row, Snapshot(), reply)
      ensures VerifyEmailAnswer(old(Snapshot()), row, Snapshot(), reply)
    {
      hide Inv, StateLater, VerifyEmailRule, VerifyEmailAnswer;
      VerifyEmailIsSound(Snapshot(), row);
      VerifyEmailFollowsRule(Snapshot(), row);
      VerifyEmailAnswers(Snapshot(), row);
      if row >= |verifications| {
        return Refused(InvalidToken);
      }
      var v := verifications[row];
      var membership := SelectLast(members, (m: Member) => m.workspace == v.workspace && m.user == v.user);
      if v.user >= |users| || v.workspace >= |workspaces| || membership.None? {
        return Refused(InvalidToken);
      }
      if v.expiresAt < clock {
        return Refused(TokenExpired);
      }
      if v.consumedAt.Some? || v.revokedAt.Some? {
        return Refused(InvalidToken);
      }
      if users[v.user].verifiedAt.None? {
        users := users[v.user := users[v.user].(verifiedAt := Some(clock))];
      }
      verifications := verifications[row := v.(consumedAt := Some(clock))];
      RevokeLinks(v.user);
      reply := OpenSession(v.user, v.workspace, false, members[membership.value].role);
    }

    method ResendVerification(email: string) returns (reply: Reply)
      requires Valid()
      modifies this
      ensures Valid() && StateLater(old(Snapshot()), Snapshot())
      ensures (Snapshot(), reply) == DoResendVerification(old(Snapshot()), email)
      ensures ResendVerificationRule(old(Snapshot()), email, Snapshot(), reply)
      ensures ResendVerificationAnswer(old(Snapshot()), email, Snapshot(), reply)
    {
      hide Inv, StateLater, ResendVerificationRule, ResendVerificationAnswer;
      ResendVerificationIsSound(Snapshot(), email);
      ResendVerificationFollowsRule(Snapshot(), email);
      ResendVerificationAnswers(Snapshot(), email);
      reply := Done;
      var found := SelectUser(email);
      if found.None? || users[found.value].verifiedAt.Some? || !users[found.value].active {
        return;
      }
      var user := found.value;
      var oldest := SelectFirst(members, (m: Member) => m.user == user && LiveMember(m));
      if oldest.None? {
        return;
      }
      RevokeLinks(user);
      verifications := verifications
      + [Verification(user, members[oldest.value].workspace, clock + VERIFICATION_TTL, None, None)];
    }

    method Login(email: string, passwordMatches: bool, remember: bool) returns (reply: Reply)
      requires Valid()
      modifies this
      ensures Valid() && StateLater(old(Snapshot()), Snapshot())
      ensures (Snapshot(), reply) == DoLogin(old(Snapshot()), email, passwordMatches, remember)
      ensures LoginRule(old(Snapshot()), email, passwordMatches, remember, Snapshot(), reply)
      ensures LoginAnswer(old(Snapshot()), email, passwordMatches, Snapshot(), reply)
    {
      hide Inv, StateLater, LoginRule, LoginAnswer;
      LoginIsSound(Snapshot(), email, passwordMatches, remember);
      LoginFollowsRule(Snapshot(), email, passwordMatches, remember);
      LoginAnswers(Snapshot(), email, passwordMatches, remember);
      var found := SelectUser(email);
      if found.None? {
        return Refused(InvalidCredentials);
      }
      var user := found.value;
      if !passwordMatches || !users[user].active {
        return Refused(InvalidCredentials);
      }
      if users[user].verifiedAt.None? {
        return Refused(EmailVerificationRequired);
      }
      var preferred := SelectPreferred(user);
      if preferred.None? {
        return Refused(MembershipInactive);
      }
      var m := members[preferred.value];
      reply := OpenSession(user, m.workspace, remember, m.role);
    }

    method Refresh(row: nat) returns (reply: Reply)
      requires Valid()
      modifies this
      ensures Valid() && StateLater(old(Snapshot()), Snapshot())
      ensures (Snapshot(), reply) == DoRefresh(old(Snapshot()), row)
      ensures RefreshRule(old(Snapshot()), row, Snapshot(), reply)
      ensures RefreshAnswer(old(Snapshot()), row, Snapshot(), reply)
    {
      hide Inv, StateLater, RefreshRule, RefreshAnswer, Authenticate, KeepsStanding;
      RefreshIsSound(Snapshot(), row);
      RefreshFollowsRule(Snapshot(), row);
      RefreshAnswers(Snapshot(), row);
      if row >= |tokens| {
        return Refused(InvalidToken);
      }
      var t := tokens[row];
      match ClassifyRefresh(t, clock) {
        case RefreshExpired =>
          RevokeTokens(OfRow(row));
          return Refused(TokenExpired);
        case RefreshWithinGrace =>
          return Refused(RefreshAlreadyRotated);
        case RefreshReused =>
          RevokeTokens(OfFamily(t.family));
          return Refused(RefreshReuseDetected);
        case RefreshActive =>
      }
      var membership := SelectActiveMembership(t.workspace, t.user);
      if membership.None? {
        return Refused(MembershipInactive);
      }
      var role := members[membership.value].role;
      var token := IssueSession(t.user, t.workspace, t.remember, t.family);
      tokens := tokens[row := tokens[row].(revokedAt := Some(clock), replacedBy := Some(token))];
      reply := Session(token, Claims(t.user, t.workspace, t.family), role);
    }

    method Logout(claims: Claims) returns (reply: Reply)
      requires Valid()
      modifies this
      ensures Valid() && StateLater(old(Snapshot()), Snapshot())
      ensures (Snapshot(), reply) == DoLogout(old(Snapshot()), claims)
      ensures LogoutRule(old(Snapshot()), claims, Snapshot(), reply)
      ensures LogoutAnswer(old(Snapshot()), claims, Snapshot(), reply)
    {
      hide Inv, StateLater, LogoutRule, LogoutAnswer;
      LogoutIsSound(Snapshot(), claims);
      LogoutFollowsRule(Snapshot(), claims);
      LogoutAnswers(Snapshot(), claims);
      reply := CheckClaims(claims);
      if reply.Refused? {
        return;
      }
      RevokeTokens(OfFamily(claims.family));
      reply := Done;
    }

    method SwitchWorkspace(claims: Claims, workspace: nat) returns (reply: Reply)
      requires Valid()
      modifies this
      ensures Valid() && StateLater(old(Snapshot()), Snapshot())
      ensures (Snapshot(), reply) == DoSwitchWorkspace(old(Snapshot()), claims, workspace)
      ensures SwitchRule(old(Snapshot()), claims, workspace, Snapshot(), reply)
      ensures SwitchAnswer(old(Snapshot()), claims, workspace, Snapshot(), reply)
    {
      hide Inv, StateLater, SwitchRule, SwitchAnswer;
      SwitchWorkspaceIsSound(Snapshot(), claims, workspace);
      SwitchFollowsRule(Snapshot(), claims, workspace);
      SwitchAnswers(Snapshot(), claims, workspace);
      reply := CheckClaims(claims);
      if reply.Refused? {
        return;
      }
      var membership := SelectActiveMembership(workspace, claims.user);
      if membership.None? {
        return Refused(MembershipInactive);
      }
      var role := members[membership.value].role;
      var remember := AnyRemembers(claims.family);
      RevokeTokens(OfFamily(claims.family));
      reply := OpenSession(claims.user, workspace, remember, role);
    }

    // ---------- invitations ----------

    method CreateInvitation(claims: Claims, email: string, role: Role) returns (reply: Reply)
      requires Valid()
      modifies this
      ensures Valid() && StateLater(old(Snapshot()), Snapshot())
      ensures (Snapshot(), reply) == DoCreateInvitation(old(Snapshot()), claims, email, role)
      ensures CreateInvitationRule(old(Snapshot()), claims, email, role, Snapshot(), reply)
      ensures CreateInvitationAnswer(old(Snapshot()), claims, email, role, Snapshot(), reply)
    {
      hide Inv, StateLater, CreateInvitationRule, CreateInvitationAnswer, RequireAdmin;
      CreateInvitationIsSound(Snapshot(), claims, email, role);
      CreateInvitationFollowsRule(Snapshot(), claims, email, role);
      CreateInvitationAnswers(Snapshot(), claims, email, role);
      reply := CheckAdmin(claims);
      if reply.Refused? {
        return;
      }
      var s := Snapshot();
      var member := SelectFirst(members, (m: Member) => MemberWithEmail(s, m, claims.workspace, email));
      if member.Some? {
        return Refused(AlreadyMember);
      }
      var link := secrets;
      var pending := SelectFirst(invitations, (i: Invitation) => PendingFor(i, claims.workspace, email));
      if pending.Some? {
        return Refused(InvitationPending);
      }
      secrets := secrets + 1;
      invitations := invitations
      + [Invitation(claims.workspace, email, role, link, Pending, claims.user, clock + INVITATION_TTL)];
      reply := Done;
    }

    method ResendInvitation(claims: Claims, row: nat) returns (reply: Reply)
      requires Valid()
      modifies this
      ensures Valid() && StateLater(old(Snapshot()), Snapshot())
      ensures (Snapshot(), reply) == DoResendInvitation(old(Snapshot()), claims, row)
      ensures ResendInvitationRule(old(Snapshot()), claims, row, Snapshot(), reply)
      ensures ResendInvitationAnswer(old(Snapshot()), claims, row, Snapshot(), reply)
    {
      hide Inv, StateLater, ResendInvitationRule, ResendInvitationAnswer, RequireAdmin;
      ResendInvitationIsSound(Snapshot(), claims, row);
      ResendInvitationFollowsRule(Snapshot(), claims, row);
      ResendInvitationAnswers(Snapshot(), claims, row);
      reply := CheckAdmin(claims);
      if reply.Refused? {
        return;
      }
      if !PendingIn(Snapshot(), row, claims.workspace) {
        return Refused(NotFound);
      }
      invitations := invitations[row := invitations[row].(secret := secrets, expiresAt := clock + INVITATION_TTL)];
      secrets := secrets + 1;
      reply := Done;
    }

    method RevokeInvitation(claims: Claims, row: nat) returns (reply: Reply)
      requires Valid()
      modifies this
      ensures Valid() && StateLater(old(Snapshot()), Snapshot())
      ensures (Snapshot(), reply) == DoRevokeInvitation(old(Snapshot()), claims, row)
      ensures RevokeInvitationRule(old(Snapshot()), claims, row, Snapshot(), reply)
      ensures RevokeInvitationAnswer(old(Snapshot()), claims, row, Snapshot(), reply)
    {
      hide Inv, StateLater, RevokeInvitationRule, RevokeInvitationAnswer, RequireAdmin;
      RevokeInvitationIsSound(Snapshot(), claims, row);
      RevokeInvitationFollowsRule(Snapshot(), claims, row);
      RevokeInvitationAnswers(Snapshot(), claims, row);
      reply := CheckAdmin(claims);
      if reply.Refused? {
        return;
      }
      if !PendingIn(Snapshot(), row, claims.workspace) {
        return Refused(NotFound);
      }
      invitations := invitations[row := invitations[row].(status := Withdrawn)];
      reply := Done;
    }

    method AcceptInvitation(secret: nat, profileValid: bool) returns (reply: Reply)
      requires Valid()
      modifies this
      ensures Valid() && StateLater(old(Snapshot()), Snapshot())
      ensures (Snapshot(), reply) == DoAcceptInvitation(old(Snapshot()), secret, profileValid)
      ensures AcceptInvitationRule(old(Snapshot()), secret, profileValid, Snapshot(), reply)
      ensures AcceptInvitationAnswer(old(Snapshot()), secret, profileValid, Snapshot(), reply)
    {
      hide Inv, StateLater, AcceptInvitationRule, AcceptInvitationAnswer;
      AcceptInvitationIsSound(Snapshot(), secret, profileValid);
      AcceptInvitationFollowsRule(Snapshot(), secret, profileValid);
      AcceptInvitationAnswers(Snapshot(), secret, profileValid);
      var known := |workspaces|;
      var found := SelectFirst(invitations, (i: Invitation) => i.secret == secret && i.workspace < known);
      if found.None? {
        return Refused(InvalidToken);
      }
      var i := invitations[found.value];
      if i.expiresAt < clock {
        return Refused(TokenExpired);
      }
      if i.status != Pending {
        return Refused(InvitationInactive);
      }
      var account := SelectUser(i.email);
      var user: nat;
      if account.None? {
        if !profileValid {
          return Refused(ValidationError);
        }
        user := |users|;
        users := users + [User(i.email, true, Some(clock), false)];
      } else {
        user := account.value;
        if !users[user].active {
          return Refused(AccountInactive);
        }
        if users[user].verifiedAt.None? {
          users := users[user := users[user].(verifiedAt := Some(clock))];
        }
      }
      var row := SelectLast(members, (m: Member) => m.workspace == i.workspace && m.user == user);
      if row.None? {
        members := members + [Member(i.workspace, user, i.role, Active, None, None)];
      } else {
        members := members[row.value := members[row.value].(role := i.role, status := Active, deletedAt := None)];
      }
      invitations := invitations[found.value := i.(status := Accepted)];
      reply := OpenSession(user, i.workspace, false, i.role);
    }

    // ---------- members ----------

    method UpdateMember(claims: Claims, row: nat, newRole: Option<Role>, newStatus: Option<MemberStatus>)
      returns (reply: Reply)
      requires Valid()
      modifies this
      ensures Valid() && StateLater(old(Snapshot()), Snapshot())
      ensures (Snapshot(), reply) == DoUpdateMember(old(Snapshot()), claims, row, newRole, newStatus)
      ensures UpdateMemberRule(old(Snapshot()), claims, row, newRole, newStatus, Snapshot(), reply)
      ensures UpdateMemberAnswer(old(Snapshot()), claims, row, newRole, newStatus, Snapshot(), reply)
    {
      hide Inv, StateLater, UpdateMemberRule, UpdateMemberAnswer, RequireAdmin, OnlyAdmin, CountActiveAdmins;
      UpdateMemberIsSound(Snapshot(), claims, row, newRole, newStatus);
      UpdateMemberFollowsRule(Snapshot(), claims, row, newRole, newStatus);
      UpdateMemberAnswers(Snapshot(), claims, row, newRole, newStatus);
      reply := CheckAdmin(claims);
      if reply.Refused? {
        return;
      }
      if newRole.None? && newStatus.None? {
        return Refused(ValidationError);
      }
      if !MemberIn(Snapshot(), row, claims.workspace) {
        return Refused(NotFound);
      }
      var target := members[row];
      var nextRole, nextStatus := target.role, target.status;
      if newRole.Some? {
        nextRole := newRole.value;
      }
      if newStatus.Some? {
        nextStatus := newStatus.value;
      }
      if target.role == Admin && target.status == Active && (nextRole != Admin || nextStatus != Active) {
        var others := CountOtherAdmins(claims.workspace, row);
        if others == 0 {
          return Refused(LastAdmin);
        }
      }
      members := members[row := target.(role := nextRole, status := nextStatus)];
      if nextStatus != Active {
        RevokeTokens(OfMember(claims.workspace, target.user));
      }
      reply := Done;
    }

    method RemoveMember(claims: Claims, row: nat) returns (reply: Reply)
      requires Valid()
      modifies this
      ensures Valid() && StateLater(old(Snapshot()), Snapshot())
      ensures (Snapshot(), reply) == DoRemoveMember(old(Snapshot()), claims, row)
      ensures RemoveMemberRule(old(Snapshot()), claims, row, Snapshot(), reply)
      ensures RemoveMemberAnswer(old(Snapshot()), claims, row, Snapshot(), reply)
    {
      hide Inv, StateLater, RemoveMemberRule, RemoveMemberAnswer, RequireAdmin, OnlyAdmin, CountActiveAdmins;
      RemoveMemberIsSound(Snapshot(), claims, row);
      RemoveMemberFollowsRule(Snapshot(), claims, row);
      RemoveMemberAnswers(Snapshot(), claims, row);
      reply := CheckAdmin(claims);
      if reply.Refused? {
        return;
      }
      if !MemberIn(Snapshot(), row, claims.workspace) {
        return Refused(NotFound);
      }
      var target := members[row];
      if target.role == Admin && target.status == Active {
        var others := CountOtherAdmins(claims.workspace, row);
        if others == 0 {
          return Refused(LastAdmin);
        }
      }
      members := members[row := target.(deletedAt := Some(clock))];
      RevokeTokens(OfMember(claims.workspace, target.user));
      reply := Done;
    }

    // ---------- serving ----------

    /** The clock moves, or a column that no handler writes is edited. */
    method Environment(r: Request) returns (reply: Reply)
      requires Valid() && FromEnvironment(r)
      modifies this
      ensures Valid() && StateLater(old(Snapshot()), Snapshot())
      ensures (Snapshot(), reply) == Step(old(Snapshot()), r)
    {
      hide Inv, StateLater;
      EnvironmentIsSound(Snapshot(), r);
      var next := Step(Snapshot(), r);
      clock, users, workspaces := next.0.clock, next.0.users, next.0.workspaces;
      reply := next.1;
    }

    /** Serve one request. Whatever it is, the invariants survive and nothing final is undone. */
    method Serve(r: Request) returns (reply: Reply)
      requires Valid()
      modifies this
      ensures (Snapshot(), reply) == Step(old(Snapshot()), r)
      ensures Valid() && StateLater(old(Snapshot()), Snapshot())
    {
      hide Valid, StateLater, DoRegister, DoVerifyEmail, DoResendVerification, DoLogin, DoRefresh, DoLogout, DoSwitchWorkspace,
        DoCreateInvitation, DoResendInvitation, DoRevokeInvitation, DoAcceptInvitation, DoUpdateMember, DoRemoveMember;
      hide RegisterRule, VerifyEmailRule, ResendVerificationRule, LoginRule, RefreshRule, LogoutRule, SwitchRule,
        CreateInvitationRule, ResendInvitationRule, RevokeInvitationRule, AcceptInvitationRule, UpdateMemberRule, RemoveMemberRule;
      hide RegisterAnswer, VerifyEmailAnswer, ResendVerificationAnswer, LoginAnswer, RefreshAnswer, LogoutAnswer, SwitchAnswer,
        CreateInvitationAnswer, ResendInvitationAnswer, RevokeInvitationAnswer, AcceptInvitationAnswer, UpdateMemberAnswer, RemoveMemberAnswer;
      match r {
        case Register(email) => reply := Register(email);
        case VerifyEmail(row) => reply := VerifyEmail(row);
        case ResendVerification(email) => reply := ResendVerification(email);
        case Login(email, matches, remember) => reply := Login(email, matches, remember);
        case Refresh(row) => reply := Refresh(row);
        case Logout(claims) => reply := Logout(claims);
        case SwitchWorkspace(claims, workspace) => reply := SwitchWorkspace(claims, workspace);
        case CreateInvitation(claims, email, role) => reply := CreateInvitation(claims, email, role);
        case ResendInvitation(claims, row) => reply := ResendInvitation(claims, row);
        case RevokeInvitation(claims, row) => reply := RevokeInvitation(claims, row);
        case AcceptInvitation(secret, valid) => reply := AcceptInvitation(secret, valid);
        case UpdateMember(claims, row, role, status) => reply := UpdateMember(claims, row, role, status);
        case RemoveMember(claims, row) => reply := RemoveMember(claims, row);
        case _ => reply := Environment(r);
      }
    }
  }
}
