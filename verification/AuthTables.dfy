// The tables of the auth component and the SQL statements its handlers issue.
// A row's index stands for its uuid (fresh, never reused); insertion order stands for created_at.
module AuthTables {
  import opened Wrappers
  import opened Tables

  // Instants and durations in microseconds, the resolution of a timestamptz.
  type Time = nat

  const SECOND: Time := 1_000_000
  const DAY: Time := 24 * 3600 * SECOND
  const REFRESH_TTL: Time := 7 * DAY
  const REMEMBER_REFRESH_TTL: Time := 30 * DAY
  const VERIFICATION_TTL: Time := DAY
  const INVITATION_TTL: Time := 7 * DAY
  const REFRESH_REUSE_GRACE: Time := 5 * SECOND

  datatype Role = Admin | Recruiter | HiringManager

  datatype MemberStatus = Active | Suspended

  datatype InvitationStatus = Pending | Accepted | Withdrawn

  datatype User = User(email: string, active: bool, verifiedAt: Option<Time>, deleted: bool)

  datatype Workspace = Workspace(createdBy: nat, deleted: bool)

  datatype Member = Member(workspace: nat, user: nat, role: Role, status: MemberStatus,
                           deletedAt: Option<Time>, lastAccessedAt: Option<Time>)

  datatype Invitation = Invitation(workspace: nat, email: string, role: Role, secret: nat,
                                   status: InvitationStatus, invitedBy: nat, expiresAt: Time)

  datatype Verification = Verification(user: nat, workspace: nat, expiresAt: Time,
                                       consumedAt: Option<Time>, revokedAt: Option<Time>)

  datatype Token = Token(user: nat, workspace: nat, family: nat, remember: bool, expiresAt: Time,
                         revokedAt: Option<Time>, replacedBy: Option<nat>)

  function Ttl(remember: bool): Time {
    if remember then REMEMBER_REFRESH_TTL else REFRESH_TTL
  }

  // ---------- users and members ----------

  predicate LiveMember(m: Member) {
    m.deletedAt.None?
  }

  predicate ActiveAdmin(m: Member) {
    LiveMember(m) && m.role == Admin && m.status == Active
  }

  function FindUser(users: seq<User>, email: string): Option<nat> {
    FindFirst(users, (u: User) => u.email == email && !u.deleted)
  }

  /** The membership row of a user, deleted or not. */
  function FindRow(members: seq<Member>, workspace: nat, user: nat): Option<nat> {
    FindLast(members, (m: Member) => m.workspace == workspace && m.user == user)
  }

  /** The membership row of a user that is not deleted. */
  function FindMember(members: seq<Member>, workspace: nat, user: nat): Option<nat> {
    FindFirst(members, (m: Member) => m.workspace == workspace && m.user == user && LiveMember(m))
  }

  function CountActiveAdmins(members: seq<Member>, workspace: nat, excluded: nat): nat {
    if members == [] then 0
    else
      var last := |members| - 1;
      CountActiveAdmins(members[..last], workspace, excluded)
      + (if last != excluded && members[last].workspace == workspace && ActiveAdmin(members[last]) then 1 else 0)
  }

  function TouchRow(m: Member, workspace: nat, user: nat, now: Time): Member {
    if m.workspace == workspace && m.user == user && LiveMember(m) then m.(lastAccessedAt := Some(now)) else m
  }

  function Touch(members: seq<Member>, workspace: nat, user: nat, now: Time): seq<Member> {
    seq(|members|, i requires 0 <= i < |members| => TouchRow(members[i], workspace, user, now))
  }

  /** Whether row a sorts strictly before row b by last access, most recent first and nulls last. */
  predicate MoreRecent(a: Member, b: Member) {
    a.lastAccessedAt.Some? && (b.lastAccessedAt.None? || b.lastAccessedAt.value < a.lastAccessedAt.value)
  }

  // ---------- verification tokens ----------

  predicate Outstanding(v: Verification) {
    v.consumedAt.None? && v.revokedAt.None?
  }

  function RevokeVerification(v: Verification, user: nat, now: Time): Verification {
    if v.user == user && Outstanding(v) then v.(revokedAt := Some(now)) else v
  }

  function RevokeVerifications(rows: seq<Verification>, user: nat, now: Time): seq<Verification> {
    seq(|rows|, i requires 0 <= i < |rows| => RevokeVerification(rows[i], user, now))
  }

  // ---------- refresh tokens ----------

  // The WHERE clause of a statement that revokes refresh tokens.
  datatype Selector = OfFamily(family: nat) | OfMember(workspace: nat, user: nat) | OfRow(row: nat)

  predicate Selects(which: Selector, row: nat, t: Token) {
    match which
    case OfFamily(f) => t.family == f
    case OfMember(w, u) => t.workspace == w && t.user == u
    case OfRow(r) => row == r
  }

  function RevokeRow(which: Selector, row: nat, t: Token, now: Time): Token {
    if Selects(which, row, t) && t.revokedAt.None? then t.(revokedAt := Some(now)) else t
  }

  /** UPDATE refresh_tokens SET revoked_at = COALESCE(revoked_at, now()) WHERE ... */
  function Revoke(tokens: seq<Token>, which: Selector, now: Time): seq<Token> {
    seq(|tokens|, i requires 0 <= i < |tokens| => RevokeRow(which, i, tokens[i], now))
  }

  function NewToken(user: nat, workspace: nat, family: nat, remember: bool, now: Time): Token {
    Token(user, workspace, family, remember, now + Ttl(remember), None, None)
  }

  /** Mark a presented token as replaced by the row that is about to hold its successor. */
  function Replace(tokens: seq<Token>, row: nat, successor: nat, now: Time): seq<Token>
    requires row < |tokens|
  {
    tokens[row := tokens[row].(revokedAt := Some(now), replacedBy := Some(successor))]
  }

  function FamilyRemembers(tokens: seq<Token>, family: nat): bool {
    exists i | 0 <= i < |tokens| :: tokens[i].family == family && tokens[i].remember
  }

  /** The rows of one family, oldest first. */
  function FamilyRows(tokens: seq<Token>, family: nat): seq<nat> {
    if tokens == [] then []
    else
      var last := |tokens| - 1;
      FamilyRows(tokens[..last], family) + (if tokens[last].family == family then [last] else [])
  }
}
