// What every request keeps in the auth tables, and what no request ever undoes.
module AuthInvariants {
  import opened Wrappers
  import opened Tables
  import opened AuthTables
  import opened TokenFamilies
  import opened AuthProtocol

  // ---------- people: users, members, invitations ----------

  predicate MemberOk(s: State, m: nat)
    requires m < |s.members|
  {
    s.members[m].workspace < |s.workspaces| && s.members[m].user < |s.users|
  }

  predicate InvitationOk(s: State, i: nat)
    requires i < |s.invitations|
  {
    s.invitations[i].workspace < |s.workspaces| && s.invitations[i].secret < s.secrets
  }

  predicate DistinctAccounts(s: State, u: nat, v: nat)
    requires u < v < |s.users|
  {
    !s.users[u].deleted && !s.users[v].deleted ==> s.users[u].email != s.users[v].email
  }

  predicate DistinctMembers(s: State, m: nat, n: nat)
    requires m < n < |s.members|
  {
    s.members[m].workspace != s.members[n].workspace || s.members[m].user != s.members[n].user
  }

  predicate DistinctInvitations(s: State, i: nat, j: nat)
    requires i < j < |s.invitations|
  {
    var a, b := s.invitations[i], s.invitations[j];
    a.secret != b.secret
    && (a.status == Pending && b.status == Pending ==> a.workspace != b.workspace || a.email != b.email)
  }

  /** A pending invitation never addresses somebody who is already in the workspace. */
  predicate InvitesOutsider(s: State, i: nat, m: nat)
    requires i < |s.invitations| && m < |s.members|
  {
    s.invitations[i].status == Pending ==>
      !MemberWithEmail(s, s.members[m], s.invitations[i].workspace, s.invitations[i].email)
  }

  ghost predicate HasAdmin(members: seq<Member>, workspace: nat) {
    exists m :: 0 <= m < |members| && members[m].workspace == workspace && ActiveAdmin(members[m])
  }

  ghost predicate PeopleOk(s: State) {
    && (forall m: nat | m < |s.members| :: MemberOk(s, m))
    && (forall i: nat | i < |s.invitations| :: InvitationOk(s, i))
    && (forall u: nat, v: nat | u < v < |s.users| :: DistinctAccounts(s, u, v))
    && (forall m: nat, n: nat | m < n < |s.members| :: DistinctMembers(s, m, n))
    && (forall i: nat, j: nat | i < j < |s.invitations| :: DistinctInvitations(s, i, j))
    && (forall i: nat, m: nat | i < |s.invitations| && m < |s.members| :: InvitesOutsider(s, i, m))
    && (forall w: nat | w < |s.workspaces| :: HasAdmin(s.members, w))
  }

  // ---------- sessions: verification and refresh tokens ----------

  predicate DistinctOutstanding(rows: seq<Verification>, i: nat, j: nat)
    requires i < j < |rows|
  {
    Outstanding(rows[i]) && Outstanding(rows[j]) ==> rows[i].user != rows[j].user
  }

  ghost predicate VerificationsOk(rows: seq<Verification>, users: nat) {
    && (forall i | 0 <= i < |rows| :: rows[i].user < users)
    && (forall i: nat, j: nat | i < j < |rows| :: DistinctOutstanding(rows, i, j))
  }

  predicate VerifiedUser(users: seq<User>, user: nat) {
    user < |users| && users[user].verifiedAt.Some?
  }

  ghost predicate OwnersVerified(tokens: seq<Token>, users: seq<User>) {
    forall i | 0 <= i < |tokens| :: VerifiedUser(users, tokens[i].user)
  }

  ghost predicate SessionsOk(s: State) {
    && Chained(s.tokens, s.families, s.clock)
    && OwnersVerified(s.tokens, s.users)
    && VerificationsOk(s.verifications, |s.users|)
  }

  ghost predicate Inv(s: State) {
    PeopleOk(s) && SessionsOk(s)
  }

  // ---------- what no request undoes ----------

  predicate UserLater(u: User, u': User) {
    u'.email == u.email && (u.deleted ==> u'.deleted) && (u.verifiedAt.Some? ==> u'.verifiedAt == u.verifiedAt)
  }

  predicate MemberLater(m: Member, m': Member) {
    m'.workspace == m.workspace && m'.user == m.user
  }

  predicate VerificationLater(v: Verification, v': Verification) {
    v'.user == v.user && v'.workspace == v.workspace && v'.expiresAt == v.expiresAt && (!Outstanding(v) ==> v' == v)
  }

  /** A spent invitation is final; a pending one changes only its status or to a link not drawn before. */
  predicate InvitationLater(i: Invitation, i': Invitation, secrets: nat) {
    && i'.workspace == i.workspace && i'.email == i.email && i'.role == i.role && i'.invitedBy == i.invitedBy
    && (i.status != Pending ==> i' == i)
    && (i'.secret == i.secret || secrets <= i'.secret)
  }

  ghost predicate StateLater(s: State, s': State) {
    && s.clock <= s'.clock && s.secrets <= s'.secrets && |s.workspaces| <= |s'.workspaces|
    && |s.users| <= |s'.users| && (forall u | 0 <= u < |s.users| :: UserLater(s.users[u], s'.users[u]))
    && |s.members| <= |s'.members| && (forall m | 0 <= m < |s.members| :: MemberLater(s.members[m], s'.members[m]))
    && |s.verifications| <= |s'.verifications|
    && (forall v | 0 <= v < |s.verifications| :: VerificationLater(s.verifications[v], s'.verifications[v]))
    && |s.invitations| <= |s'.invitations|
    && (forall i | 0 <= i < |s.invitations| :: InvitationLater(s.invitations[i], s'.invitations[i], s.secrets))
    && (forall i | |s.invitations| <= i < |s'.invitations| :: s.secrets <= s'.invitations[i].secret)
    && TokensLater(s.tokens, s.families, s'.tokens, s'.families)
  }

  lemma StateLaterIsTransitive(a: State, b: State, c: State)
    requires StateLater(a, b) && StateLater(b, c)
    ensures StateLater(a, c)
  {
    LaterIsTransitive(a.tokens, a.families, b.tokens, b.families, c.tokens, c.families);
    forall u | 0 <= u < |a.users| ensures UserLater(a.users[u], c.users[u]) {
      assert UserLater(a.users[u], b.users[u]) && UserLater(b.users[u], c.users[u]);
    }
    forall m | 0 <= m < |a.members| ensures MemberLater(a.members[m], c.members[m]) {
      assert MemberLater(a.members[m], b.members[m]) && MemberLater(b.members[m], c.members[m]);
    }
    forall v | 0 <= v < |a.verifications| ensures VerificationLater(a.verifications[v], c.verifications[v]) {
      assert VerificationLater(a.verifications[v], b.verifications[v]) && VerificationLater(b.verifications[v], c.verifications[v]);
    }
    forall i | 0 <= i < |a.invitations| ensures InvitationLater(a.invitations[i], c.invitations[i], a.secrets) {
      assert InvitationLater(a.invitations[i], b.invitations[i], a.secrets);
      assert InvitationLater(b.invitations[i], c.invitations[i], b.secrets);
    }
    forall i | |a.invitations| <= i < |c.invitations| ensures a.secrets <= c.invitations[i].secret {
      if i < |b.invitations| {
        assert InvitationLater(b.invitations[i], c.invitations[i], b.secrets);
      }
    }
  }

  // ---------- people are kept by requests that change nobody's standing ----------

  predicate SameStanding(m: Member, m': Member) {
    m' == m.(lastAccessedAt := m'.lastAccessedAt)
  }

  /** The accounts, standings and invitations of two states agree. */
  ghost predicate SamePeople(s: State, s': State) {
    && |s'.workspaces| == |s.workspaces| && s'.secrets == s.secrets && s'.invitations == s.invitations
    && |s'.users| == |s.users| && (forall u | 0 <= u < |s.users| :: UserLater(s.users[u], s'.users[u]))
    && |s'.members| == |s.members| && (forall m | 0 <= m < |s.members| :: SameStanding(s.members[m], s'.members[m]))
  }

  lemma SamePeopleOk(s: State, s': State)
    requires PeopleOk(s) && SamePeople(s, s')
    ensures PeopleOk(s')
  {
    forall m: nat | m < |s'.members| ensures MemberOk(s', m) {
      assert MemberOk(s, m) && SameStanding(s.members[m], s'.members[m]);
    }
    forall i: nat | i < |s'.invitations| ensures InvitationOk(s', i) {
      assert InvitationOk(s, i);
    }
    forall u: nat, v: nat | u < v < |s'.users| ensures DistinctAccounts(s', u, v) {
      assert DistinctAccounts(s, u, v) && UserLater(s.users[u], s'.users[u]) && UserLater(s.users[v], s'.users[v]);
    }
    forall m: nat, n: nat | m < n < |s'.members| ensures DistinctMembers(s', m, n) {
      assert DistinctMembers(s, m, n);
      assert SameStanding(s.members[m], s'.members[m]) && SameStanding(s.members[n], s'.members[n]);
    }
    forall i: nat, j: nat | i < j < |s'.invitations| ensures DistinctInvitations(s', i, j) {
      assert DistinctInvitations(s, i, j);
    }
    forall i: nat, m: nat | i < |s'.invitations| && m < |s'.members| ensures InvitesOutsider(s', i, m) {
      assert InvitesOutsider(s, i, m) && MemberOk(s, m) && SameStanding(s.members[m], s'.members[m]);
    }
    forall w: nat | w < |s'.workspaces| ensures HasAdmin(s'.members, w) {
      assert HasAdmin(s.members, w);
      var m :| 0 <= m < |s.members| && s.members[m].workspace == w && ActiveAdmin(s.members[m]);
      assert SameStanding(s.members[m], s'.members[m]);
      assert ActiveAdmin(s'.members[m]);
    }
  }

  // ---------- people are kept by the requests that do change them ----------

  lemma RegisterKeepsPeople(s: State, email: string)
    requires PeopleOk(s)
    ensures PeopleOk(DoRegister(s, email).0)
  {
    var s' := DoRegister(s, email).0;
    if s' != s {
      var user, workspace := |s.users|, |s.workspaces|;
      forall m: nat | m < |s'.members| ensures MemberOk(s', m) {
        assert m < |s.members| ==> MemberOk(s, m);
      }
      forall i: nat | i < |s'.invitations| ensures InvitationOk(s', i) {
        assert InvitationOk(s, i);
      }
      forall u: nat, v: nat | u < v < |s'.users| ensures DistinctAccounts(s', u, v) {
        assert v < user ==> DistinctAccounts(s, u, v);
      }
      forall m: nat, n: nat | m < n < |s'.members| ensures DistinctMembers(s', m, n) {
        assert MemberOk(s, m);
        assert n < |s.members| ==> DistinctMembers(s, m, n);
      }
      forall i: nat, j: nat | i < j < |s'.invitations| ensures DistinctInvitations(s', i, j) {
        assert DistinctInvitations(s, i, j);
      }
      forall i: nat, m: nat | i < |s'.invitations| && m < |s'.members| ensures InvitesOutsider(s', i, m) {
        assert InvitationOk(s, i);
        assert m < |s.members| ==> InvitesOutsider(s, i, m) && MemberOk(s, m);
      }
      forall w: nat | w < |s'.workspaces| ensures HasAdmin(s'.members, w) {
        if w < workspace {
          assert HasAdmin(s.members, w);
          var m :| 0 <= m < |s.members| && s.members[m].workspace == w && ActiveAdmin(s.members[m]);
          assert s'.members[m] == s.members[m];
        } else {
          assert ActiveAdmin(s'.members[|s.members|]);
        }
      }
    }
  }

  /** Replacing one invitation keeps people if the new version is still distinct and aimed at an outsider. */
  lemma InvitationStepKeepsPeople(s: State, s': State, row: nat)
    requires PeopleOk(s)
    requires s' == s.(invitations := s'.invitations, secrets := s'.secrets) && s.secrets <= s'.secrets
    requires row < |s'.invitations| && |s.invitations| <= |s'.invitations| <= |s.invitations| + 1
    requires |s'.invitations| == |s.invitations| + 1 ==> row == |s.invitations|
    requires forall i: nat | i < |s.invitations| && i != row :: s'.invitations[i] == s.invitations[i]
    requires InvitationOk(s', row)
    requires forall i: nat | i < |s.invitations| && i != row ::
               s.invitations[i].secret != s'.invitations[row].secret
               && !(s'.invitations[row].status == Pending
                    && PendingFor(s.invitations[i], s'.invitations[row].workspace, s'.invitations[row].email))
    requires forall m: nat | m < |s.members| :: InvitesOutsider(s', row, m)
    ensures PeopleOk(s')
  {
    forall m: nat | m < |s'.members| ensures MemberOk(s', m) {
      assert MemberOk(s, m);
    }
    forall i: nat | i < |s'.invitations| ensures InvitationOk(s', i) {
      assert i != row ==> InvitationOk(s, i);
    }
    forall u: nat, v: nat | u < v < |s'.users| ensures DistinctAccounts(s', u, v) {
      assert DistinctAccounts(s, u, v);
    }
    forall m: nat, n: nat | m < n < |s'.members| ensures DistinctMembers(s', m, n) {
      assert DistinctMembers(s, m, n);
    }
    forall i: nat, j: nat | i < j < |s'.invitations| ensures DistinctInvitations(s', i, j) {
      assert i != row && j != row ==> DistinctInvitations(s, i, j);
    }
    forall i: nat, m: nat | i < |s'.invitations| && m < |s'.members| ensures InvitesOutsider(s', i, m) {
      assert i != row ==> InvitesOutsider(s, i, m);
    }
  }

  lemma CreateInvitationKeepsPeople(s: State, claims: Claims, email: string, role: Role)
    requires PeopleOk(s)
    ensures PeopleOk(DoCreateInvitation(s, claims, email, role).0)
  {
    var s' := DoCreateInvitation(s, claims, email, role).0;
    if s' != s {
      AuthenticatedIsActive(s, claims);
      var row := |s.invitations|;
      forall i: nat | i < |s.invitations|
        ensures s.invitations[i].secret != s'.invitations[row].secret && !PendingFor(s.invitations[i], claims.workspace, email)
      {
        assert InvitationOk(s, i);
      }
      InvitationStepKeepsPeople(s, s', row);
    }
  }

  lemma ResendInvitationKeepsPeople(s: State, claims: Claims, row: nat)
    requires PeopleOk(s)
    ensures PeopleOk(DoResendInvitation(s, claims, row).0)
  {
    var s' := DoResendInvitation(s, claims, row).0;
    if s' != s {
      EditedInvitationKeepsPeople(s, s', row);
    }
  }

  lemma RevokeInvitationKeepsPeople(s: State, claims: Claims, row: nat)
    requires PeopleOk(s)
    ensures PeopleOk(DoRevokeInvitation(s, claims, row).0)
  {
    var s' := DoRevokeInvitation(s, claims, row).0;
    if s' != s {
      EditedInvitationKeepsPeople(s, s', row);
    }
  }

  /** An existing pending invitation may be closed, or given a link that was never drawn before. */
  lemma EditedInvitationKeepsPeople(s: State, s': State, row: nat)
    requires PeopleOk(s) && row < |s.invitations| && s.invitations[row].status == Pending
    requires s' == s.(invitations := s'.invitations, secrets := s'.secrets) && s.secrets <= s'.secrets
    requires |s'.invitations| == |s.invitations| && s'.invitations == s.invitations[row := s'.invitations[row]]
    requires s'.invitations[row].workspace == s.invitations[row].workspace
    requires s'.invitations[row].email == s.invitations[row].email
    requires s'.invitations[row].secret == s.invitations[row].secret || s.secrets <= s'.invitations[row].secret < s'.secrets
    ensures PeopleOk(s')
  {
    assert InvitationOk(s, row);
    forall i: nat | i < |s.invitations| && i != row
      ensures s.invitations[i].secret != s'.invitations[row].secret
              && !PendingFor(s.invitations[i], s'.invitations[row].workspace, s'.invitations[row].email)
    {
      assert InvitationOk(s, i);
      assert if i < row then DistinctInvitations(s, i, row) else DistinctInvitations(s, row, i);
    }
    forall m: nat | m < |s.members| ensures InvitesOutsider(s', row, m) {
      assert InvitesOutsider(s, row, m);
    }
    InvitationStepKeepsPeople(s, s', row);
  }

  lemma AuthenticatedIsActive(s: State, claims: Claims)
    requires Authenticate(s, claims).Session?
    ensures claims.user < |s.users| && claims.workspace < |s.workspaces| && FindMember(s.members, claims.workspace, claims.user).Some?
  {
  }

  // ---------- members ----------

  lemma {:induction false} CountFindsAdmin(members: seq<Member>, workspace: nat, excluded: nat)
    ensures CountActiveAdmins(members, workspace, excluded) > 0 <==>
            exists m :: 0 <= m < |members| && m != excluded && members[m].workspace == workspace && ActiveAdmin(members[m])
  {
    if members != [] {
      var last := |members| - 1;
      var before := members[..last];
      CountFindsAdmin(before, workspace, excluded);
      if CountActiveAdmins(before, workspace, excluded) > 0 {
        var m :| 0 <= m < |before| && m != excluded && before[m].workspace == workspace && ActiveAdmin(before[m]);
        assert members[m] == before[m];
      }
      forall m | 0 <= m < last && m != excluded && members[m].workspace == workspace && ActiveAdmin(members[m])
        ensures CountActiveAdmins(before, workspace, excluded) > 0
      {
        assert before[m] == members[m];
      }
    }
  }

  /** Editing the standing of one member keeps people, as long as the workspace keeps an admin. */
  lemma MemberStepKeepsPeople(s: State, s': State, row: nat)
    requires PeopleOk(s) && row < |s.members| && LiveMember(s.members[row])
    requires s' == s.(members := s'.members, tokens := s'.tokens)
    requires |s'.members| == |s.members| && s'.members == s.members[row := s'.members[row]]
    requires MemberLater(s.members[row], s'.members[row])
    requires ActiveAdmin(s.members[row]) ==>
               ActiveAdmin(s'.members[row]) || CountActiveAdmins(s.members, s.members[row].workspace, row) > 0
    ensures PeopleOk(s')
  {
    forall m: nat | m < |s'.members| ensures MemberOk(s', m) {
      assert MemberOk(s, m);
    }
    forall i: nat | i < |s'.invitations| ensures InvitationOk(s', i) {
      assert InvitationOk(s, i);
    }
    forall u: nat, v: nat | u < v < |s'.users| ensures DistinctAccounts(s', u, v) {
      assert DistinctAccounts(s, u, v);
    }
    forall m: nat, n: nat | m < n < |s'.members| ensures DistinctMembers(s', m, n) {
      assert DistinctMembers(s, m, n);
    }
    forall i: nat, j: nat | i < j < |s'.invitations| ensures DistinctInvitations(s', i, j) {
      assert DistinctInvitations(s, i, j);
    }
    forall i: nat, m: nat | i < |s'.invitations| && m < |s'.members| ensures InvitesOutsider(s', i, m) {
      assert InvitesOutsider(s, i, m);
    }
    forall w: nat | w < |s'.workspaces| ensures HasAdmin(s'.members, w) {
      assert HasAdmin(s.members, w);
      CountFindsAdmin(s.members, w, row);
      var m :| 0 <= m < |s.members| && s.members[m].workspace == w && ActiveAdmin(s.members[m])
               && (m == row ==> ActiveAdmin(s'.members[row]));
      assert s'.members[m].workspace == w && ActiveAdmin(s'.members[m]);
    }
  }

  lemma UpdateMemberKeepsPeople(s: State, claims: Claims, row: nat, role: Option<Role>, status: Option<MemberStatus>)
    requires PeopleOk(s)
    ensures PeopleOk(DoUpdateMember(s, claims, row, role, status).0)
  {
    var s' := DoUpdateMember(s, claims, row, role, status).0;
    if s' != s {
      MemberStepKeepsPeople(s, s', row);
    }
  }

  lemma RemoveMemberKeepsPeople(s: State, claims: Claims, row: nat)
    requires PeopleOk(s)
    ensures PeopleOk(DoRemoveMember(s, claims, row).0)
  {
    var s' := DoRemoveMember(s, claims, row).0;
    if s' != s {
      MemberStepKeepsPeople(s, s', row);
    }
  }

  // ---------- accepting an invitation ----------

  /** Accepting never touches the row of somebody who is in the workspace: it adds or revives. */
  lemma AdmitsOnlyOutsiders(s: State, row: nat, user: nat)
    requires PeopleOk(s) && row < |s.invitations| && s.invitations[row].status == Pending
    requires user < |s.users| && s.users[user].email == s.invitations[row].email
    ensures var m := FindRow(s.members, s.invitations[row].workspace, user);
            m.Some? ==> s.members[m.value].deletedAt.Some?
  {
    var m := FindRow(s.members, s.invitations[row].workspace, user);
    if m.Some? {
      assert InvitesOutsider(s, row, m.value) && MemberOk(s, m.value);
    }
  }

  lemma AdmitAccountKeepsPeople(s: State, email: string)
    requires PeopleOk(s)
    ensures var (s1, user) := AdmitAccount(s, email);
            && PeopleOk(s1) && s1 == s.(users := s1.users)
            && user < |s1.users| && s1.users[user].email == email && s1.users[user].verifiedAt.Some? && !s1.users[user].deleted
            && |s.users| <= |s1.users| && forall u | 0 <= u < |s.users| :: UserLater(s.users[u], s1.users[u])
  {
    var (s1, user) := AdmitAccount(s, email);
    if FindUser(s.users, email).Some? {
      forall m | 0 <= m < |s.members| ensures SameStanding(s.members[m], s1.members[m]) {}
      SamePeopleOk(s, s1);
    } else {
      forall m: nat | m < |s1.members| ensures MemberOk(s1, m) {
        assert MemberOk(s, m);
      }
      forall i: nat | i < |s1.invitations| ensures InvitationOk(s1, i) {
        assert InvitationOk(s, i);
      }
      forall u: nat, v: nat | u < v < |s1.users| ensures DistinctAccounts(s1, u, v) {
        assert v < |s.users| ==> DistinctAccounts(s, u, v);
      }
      forall m: nat, n: nat | m < n < |s1.members| ensures DistinctMembers(s1, m, n) {
        assert DistinctMembers(s, m, n);
      }
      forall i: nat, j: nat | i < j < |s1.invitations| ensures DistinctInvitations(s1, i, j) {
        assert DistinctInvitations(s, i, j);
      }
      forall i: nat, m: nat | i < |s1.invitations| && m < |s1.members| ensures InvitesOutsider(s1, i, m) {
        assert InvitesOutsider(s, i, m) && MemberOk(s, m);
      }
    }
  }

  /** The state once the membership is written and the invitation is closed. */
  function Admitted(s: State, row: nat, user: nat): State
    requires row < |s.invitations|
  {
    var i := s.invitations[row];
    s.(members := AdmitMember(s.members, i.workspace, user, i.role),
    invitations := s.invitations[row := i.(status := Accepted)])
  }

  lemma AdmitMemberKeepsPeople(s: State, row: nat, user: nat)
    requires PeopleOk(s) && row < |s.invitations| && s.invitations[row].status == Pending
    requires user < |s.users| && s.users[user].email == s.invitations[row].email
    ensures PeopleOk(Admitted(s, row, user))
  {
    var s' := Admitted(s, row, user);
    var invitation := s.invitations[row];
    var found := FindRow(s.members, invitation.workspace, user);
    AdmitsOnlyOutsiders(s, row, user);
    assert InvitationOk(s, row);
    var admitted := if found.Some? then found.value else |s.members|;
    assert forall m | 0 <= m < |s.members| && m != admitted :: s'.members[m] == s.members[m];
    forall m: nat | m < |s'.members| ensures MemberOk(s', m) {
      assert m < |s.members| ==> MemberOk(s, m);
    }
    forall i: nat | i < |s'.invitations| ensures InvitationOk(s', i) {
      assert InvitationOk(s, i);
    }
    forall u: nat, v: nat | u < v < |s'.users| ensures DistinctAccounts(s', u, v) {
      assert DistinctAccounts(s, u, v);
    }
    forall m: nat, n: nat | m < n < |s'.members| ensures DistinctMembers(s', m, n) {
      assert n < |s.members| ==> DistinctMembers(s, m, n);
    }
    forall i: nat, j: nat | i < j < |s'.invitations| ensures DistinctInvitations(s', i, j) {
      assert DistinctInvitations(s, i, j);
    }
    forall i: nat, m: nat | i < |s'.invitations| && m < |s'.members| ensures InvitesOutsider(s', i, m) {
      if m != admitted {
        assert InvitesOutsider(s, i, m);
      } else if i < row {
        assert DistinctInvitations(s, i, row);
      } else if row < i {
        assert DistinctInvitations(s, row, i);
      }
    }
    forall w: nat | w < |s'.workspaces| ensures HasAdmin(s'.members, w) {
      assert HasAdmin(s.members, w);
      var m :| 0 <= m < |s.members| && s.members[m].workspace == w && ActiveAdmin(s.members[m]);
      assert s'.members[m] == s.members[m];
    }
  }
}
