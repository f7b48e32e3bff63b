/** Invitations and registration of `auth.py`. Invitations are keyed by their token, the token hash
    being injective; password hashes and sessions carry no decision and are left out. */
module Invitations {
  import opened Wrappers

  datatype Role = Owner | Admin | Editor | Viewer

  datatype Status = Pending | Accepted | Expired | Revoked

  datatype Invitation = Invitation(workspace: nat, email: Option<string>, role: Role, status: Status,
                                   expiresAt: real, acceptedAt: Option<real>)

  /** A membership is keyed by workspace and user. */
  datatype Member = Member(workspace: nat, user: nat)

  datatype Auth = Auth(users: map<nat, string>, invitations: map<string, Invitation>,
                       memberships: map<Member, Role>, defaultWorkspace: Option<nat>)

  /** `str.strip`, `str.lower` and `str.isspace`. */
  datatype Text = Text(strip: string -> string, lower: string -> string, space: char -> bool) {
    function Normalize(email: string): string {
      lower(strip(email))
    }

    predicate Trimmed(s: string) {
      s == "" || (!space(s[0]) && !space(s[|s| - 1]))
    }

    /** What is assumed of them where an invitation's email is concerned. */
    ghost predicate Sane() {
      && (forall s :: Trimmed(strip(s)))
      && (forall s :: Trimmed(s) ==> strip(s) == s)
      && (forall s :: Trimmed(lower(s)) <==> Trimmed(s))
    }
  }

  const DEFAULT_WORKSPACE_ID: nat := 0xdefa

  datatype Error = EmailTaken | BadInvitation | WrongEmail | TokenTaken | InvitationRequired

  datatype Revocation = Done | NotFound | NotPending

  datatype Registration = Registration(user: nat, workspace: nat)

  predicate ExpiredAt(expiresAt: real, now: real) {
    expiresAt <= now
  }

  /** The invitation a token admits to now, if it is pending and not expired. */
  function Admits(st: Auth, token: string, workspace: Option<nat>, now: real): Option<Invitation> {
    if token !in st.invitations then None else
      var inv := st.invitations[token];
      if workspace.Some? && inv.workspace != workspace.value then None
      else if inv.status != Pending || ExpiredAt(inv.expiresAt, now) then None
      else Some(inv)
  }

  /** Verification marks a pending invitation found past its date as expired. */
  function Verified(st: Auth, token: string, workspace: Option<nat>, now: real): Auth {
    if token in st.invitations && (workspace.Some? ==> st.invitations[token].workspace == workspace.value)
       && st.invitations[token].status == Pending && ExpiredAt(st.invitations[token].expiresAt, now)
    then st.(invitations := st.invitations[token := st.invitations[token].(status := Expired)])
    else st
  }

  function AcceptedAt(st: Auth, token: string, now: real): Auth
    requires token in st.invitations
  {
    st.(invitations := st.invitations[token := st.invitations[token].(status := Accepted, acceptedAt := Some(now))])
  }

  predicate HasMember(st: Auth, workspace: nat) {
    exists m :: m in st.memberships && m.workspace == workspace
  }

  function Invited(token: Option<string>): bool {
    token.Some? && token.value != ""
  }

  /** Why a registration is refused, if it is. */
  function Refusal(tx: Text, st: Auth, email: string, token: Option<string>, now: real): Option<Error> {
    var normalized := tx.Normalize(email);
    if normalized in st.users.Values then Some(EmailTaken)
    else if !Invited(token) then None
    else match Admits(st, token.value, None, now)
         case None => Some(BadInvitation)
         case Some(inv) =>
           if inv.email.Some? && inv.email.value != "" && tx.lower(inv.email.value) != normalized then Some(WrongEmail) else None
  }

  function WithUser(st: Auth, user: nat, email: string): Auth {
    st.(users := st.users[user := email],
        defaultWorkspace := Some(st.defaultWorkspace.GetOr(DEFAULT_WORKSPACE_ID)))
  }

  function WithMember(st: Auth, workspace: nat, user: nat, role: Role): Auth {
    if Member(workspace, user) in st.memberships then st
    else st.(memberships := st.memberships[Member(workspace, user) := role])
  }

  /** The state after a registration; a refused one may still expire the invitation. The clock is
      read once to verify the invitation (`now`) and once more to accept it (`done`). */
  function Registered(tx: Text, st: Auth, email: string, token: Option<string>, user: nat, now: real, done: real): Auth {
    var checked := if Invited(token) && tx.Normalize(email) !in st.users.Values then Verified(st, token.value, None, now) else st;
    if Refusal(tx, st, email, token, now).Some? then checked else
      var joined := WithUser(checked, user, tx.Normalize(email));
      if Invited(token) && token.value in st.invitations then
        var inv := st.invitations[token.value];
        AcceptedAt(WithMember(joined, inv.workspace, user, inv.role), token.value, done)
      else
        var ws := joined.defaultWorkspace.value;
        WithMember(joined, ws, user, if HasMember(joined, ws) then Viewer else Owner)
  }

  class AuthStore {
    const text: Text
    var users: map<nat, string>
    var invitations: map<string, Invitation>
    var memberships: map<Member, Role>
    var defaultWorkspace: Option<nat>

    constructor (text: Text)
      ensures this.text == text && State() == Auth(map[], map[], map[], None)
    {
      this.text := text;
      users, invitations, memberships, defaultWorkspace := map[], map[], map[], None;
    }

    ghost function State(): Auth
      reads this
    {
      Auth(users, invitations, memberships, defaultWorkspace)
    }

    /** The token is unique in the table. */
    method CreateInvitation(token: string, workspace: nat, email: Option<string>, role: Role, expiresAt: real)
      returns (r: Result<string, Error>)
      modifies this
      ensures if token in old(invitations) then r == Err(TokenTaken) && State() == old(State())
              else r == Ok(token) && State() == Issued(old(State()), token, workspace, email, role, expiresAt)
                   && invitations == old(invitations)[token := Invitation(workspace, email, role, Pending, expiresAt, None)]
    {
      if token in invitations {
        return Err(TokenTaken);
      }
      invitations := invitations[token := Invitation(workspace, email, role, Pending, expiresAt, None)];
      return Ok(token);
    }

    method VerifyInvitation(token: string, workspace: Option<nat>, now: real) returns (r: Option<Invitation>)
      modifies this`invitations
      ensures r == Admits(old(State()), token, workspace, now)
      ensures State() == Verified(old(State()), token, workspace, now)
    {
      if token !in invitations {
        return None;
      }
      var inv := invitations[token];
      if workspace.Some? && inv.workspace != workspace.value {
        return None;
      }
      if inv.status != Pending {
        return None;
      }
      if ExpiredAt(inv.expiresAt, now) {
        invitations := invitations[token := inv.(status := Expired)];
        return None;
      }
      return Some(inv);
    }

    method AcceptInvitation(token: string, now: real)
      requires token in invitations
      modifies this`invitations
      ensures State() == AcceptedAt(old(State()), token, now)
    {
      invitations := invitations[token := invitations[token].(status := Accepted, acceptedAt := Some(now))];
    }

    /** `user` is the id the database gives the new row. */
    method RegisterUser(email: string, token: Option<string>, user: nat, now: real, done: real) returns (r: Result<Registration, Error>)
      requires user !in users
      modifies this
      ensures State() == Registered(text, old(State()), email, token, user, now, done)
      ensures match Refusal(text, old(State()), email, token, now)
              case Some(e) => r == Err(e)
              case None => r.Ok? && r.value.user == user && Member(r.value.workspace, user) in memberships
                           && r.value.workspace == (if Invited(token) then old(invitations)[token.value].workspace
                                                    else old(defaultWorkspace).GetOr(DEFAULT_WORKSPACE_ID))
    {
      var normalized := text.Normalize(email);
      if normalized in users.Values {
        return Err(EmailTaken);
      }
      var invitation: Option<Invitation> := None;
      if Invited(token) {
        invitation := VerifyInvitation(token.value, None, now);
        if invitation.None? {
          return Err(BadInvitation);
        }
        if invitation.value.email.Some? && invitation.value.email.value != "" && text.lower(invitation.value.email.value) != normalized {
          return Err(WrongEmail);
        }
      }
      users := users[user := normalized];
      if defaultWorkspace.None? {
        defaultWorkspace := Some(DEFAULT_WORKSPACE_ID);
      }
      var target := if invitation.Some? then invitation.value.workspace else defaultWorkspace.value;
      if Member(target, user) !in memberships {
        var role := if invitation.Some? then invitation.value.role
                    else if exists m :: m in memberships && m.workspace == target then Viewer
                    else Owner;
        memberships := memberships[Member(target, user) := role];
      }
      if invitation.Some? {
        AcceptInvitation(token.value, done);
      }
      return Ok(Registration(user, target));
    }

    /** The service around `register_user`: with closed registration it asks for a token, and a
        refusal closes the session without a commit, so even an expiry found on the way is lost. */
    method RegisterAccount(inviteOnly: bool, email: string, token: Option<string>, user: nat, now: real, done: real)
      returns (r: Result<Registration, Error>)
      requires user !in users
      modifies this
      ensures if inviteOnly && !Invited(token) then r == Err(InvitationRequired) && State() == old(State())
              else State() == AccountState(text, old(State()), email, token, user, now, done)
                   && match Refusal(text, old(State()), email, token, now)
                      case Some(e) => r == Err(e)
                      case None => r.Ok?
    {
      if inviteOnly && !Invited(token) {
        return Err(InvitationRequired);
      }
      var committed := invitations;
      r := RegisterUser(email, token, user, now, done);
      if r.Err? {
        invitations := committed;
      }
    }

    /** Only a pending invitation of the caller's workspace can be revoked. */
    method RevokeInvitation(token: string, workspace: nat) returns (r: Revocation)
      modifies this`invitations
      ensures State() == RevokedState(old(State()), token, workspace)
      ensures r == if token !in old(invitations) || old(invitations)[token].workspace != workspace then NotFound
                   else if old(invitations)[token].status != Pending then NotPending else Done
      ensures invitations == if r.Done? then old(invitations)[token := old(invitations)[token].(status := Revoked)]
                             else old(invitations)
    {
      if token !in invitations || invitations[token].workspace != workspace {
        return NotFound;
      }
      if invitations[token].status != Pending {
        return NotPending;
      }
      invitations := invitations[token := invitations[token].(status := Revoked)];
      return Done;
    }
  }

  function Issued(st: Auth, token: string, workspace: nat, email: Option<string>, role: Role, expiresAt: real): Auth {
    if token in st.invitations then st
    else st.(invitations := st.invitations[token := Invitation(workspace, email, role, Pending, expiresAt, None)])
  }

  function RevokedState(st: Auth, token: string, workspace: nat): Auth {
    if token in st.invitations && st.invitations[token].workspace == workspace && st.invitations[token].status == Pending
    then st.(invitations := st.invitations[token := st.invitations[token].(status := Revoked)])
    else st
  }

  function AccountState(tx: Text, st: Auth, email: string, token: Option<string>, user: nat, now: real, done: real): Auth {
    if Refusal(tx, st, email, token, now).Some? then st else Registered(tx, st, email, token, user, now, done)
  }

  // ---------------------------------------------------------------- runs

  /** `service` tells a registration through the service from one whose caller keeps the session. */
  datatype Op =
    | Create(token: string, workspace: nat, email: Option<string>, role: Role, expiresAt: real)
    | Verify(token: string, scope: Option<nat>, now: real)
    | Register(address: string, invite: Option<string>, user: nat, now: real, done: real, service: bool)
    | Revoke(token: string, from: nat)

  function Step(tx: Text, st: Auth, op: Op): Auth {
    match op
    case Create(token, workspace, email, role, expiresAt) => Issued(st, token, workspace, email, role, expiresAt)
    case Verify(token, scope, now) => Verified(st, token, scope, now)
    case Register(address, invite, user, now, done, service) =>
      if service then AccountState(tx, st, address, invite, user, now, done)
      else Registered(tx, st, address, invite, user, now, done)
    case Revoke(token, from) => RevokedState(st, token, from)
  }

  function Run(tx: Text, st: Auth, ops: seq<Op>): Auth {
    if ops == [] then st else Step(tx, Run(tx, st, ops[..|ops| - 1]), ops[|ops| - 1])
  }

  /** New users draw new ids. */
  ghost predicate FreshUsers(tx: Text, st: Auth, ops: seq<Op>) {
    forall i :: 0 <= i < |ops| && ops[i].Register? ==> ops[i].user !in Run(tx, st, ops[..i]).users
  }

  ghost predicate SameTerms(a: Invitation, b: Invitation) {
    a.workspace == b.workspace && a.email == b.email && a.role == b.role && a.expiresAt == b.expiresAt
  }

  /** An invitation only leaves the pending state, once; nobody's membership changes; users and
      the default workspace stay. */
  ghost predicate InvitationsEvolve(a: map<string, Invitation>, b: map<string, Invitation>) {
    forall t :: t in a ==> t in b && SameTerms(a[t], b[t]) && (a[t].status != Pending ==> b[t] == a[t])
  }

  ghost predicate Evolves(a: Auth, b: Auth) {
    && InvitationsEvolve(a.invitations, b.invitations)
    && (forall m :: m in a.memberships ==> m in b.memberships && b.memberships[m] == a.memberships[m])
    && (forall u :: u in a.users ==> u in b.users && b.users[u] == a.users[u])
    && (a.defaultWorkspace.Some? ==> b.defaultWorkspace == a.defaultWorkspace)
  }

  ghost predicate EmailsUnique(st: Auth) {
    forall u, v :: u in st.users && v in st.users && u != v ==> st.users[u] != st.users[v]
  }

  lemma RegistrationEvolves(tx: Text, st: Auth, op: Op)
    requires op.Register? && op.user !in st.users
    ensures Evolves(st, Step(tx, st, op))
  {
    hide HasMember;
    if Refusal(tx, st, op.address, op.invite, op.now).None? && Invited(op.invite) {
      hide Refusal;
      var st' := Step(tx, st, op);
      assert st'.invitations == AcceptedAt(st, op.invite.value, op.done).invitations;
    }
  }

  lemma StepKeepsEmailsUnique(tx: Text, st: Auth, op: Op)
    requires EmailsUnique(st) && (op.Register? ==> op.user !in st.users)
    ensures EmailsUnique(Step(tx, st, op))
  {
    if op.Register? && Refusal(tx, st, op.address, op.invite, op.now).None? {
      var email := tx.Normalize(op.address);
      assert Step(tx, st, op).users == st.users[op.user := email];
      forall u | u in st.users ensures st.users[u] != email {
        assert st.users[u] in st.users.Values;
      }
    } else {
      assert Step(tx, st, op).users == st.users;
    }
  }

  lemma StepEvolves(tx: Text, st: Auth, op: Op)
    requires op.Register? ==> op.user !in st.users
    ensures Evolves(st, Step(tx, st, op))
    ensures EmailsUnique(st) ==> EmailsUnique(Step(tx, st, op))
  {
    hide EmailsUnique;
    if EmailsUnique(st) {
      StepKeepsEmailsUnique(tx, st, op);
    }
    if op.Register? {
      hide Evolves, Step;
      RegistrationEvolves(tx, st, op);
    }
  }

  lemma EvolvesTransitively(a: Auth, b: Auth, c: Auth)
    requires Evolves(a, b) && Evolves(b, c)
    ensures Evolves(a, c)
  {
  }

  /** Main result: the lifecycle over any run. Invitations only move from pending to accepted,
      expired or revoked, memberships are only added, emails stay unique. */
  lemma {:induction false} RunEvolves(tx: Text, st: Auth, ops: seq<Op>, i: nat)
    requires i <= |ops| && FreshUsers(tx, st, ops)
    ensures Evolves(Run(tx, st, ops[..i]), Run(tx, st, ops))
    ensures EmailsUnique(st) ==> EmailsUnique(Run(tx, st, ops))
    decreases |ops|
  {
    hide Evolves, EmailsUnique, Step;
    if i == |ops| && ops == [] {
      EvolvesReflexively(st);
    } else {
      var n := |ops| - 1;
      var before := ops[..n];
      assert forall j :: 0 <= j <= n ==> before[..j] == ops[..j];
      RunEvolves(tx, st, before, if i == |ops| then n else i);
      StepEvolves(tx, Run(tx, st, before), ops[n]);
      if i == |ops| {
        assert ops[..i] == ops;
        EvolvesReflexively(Run(tx, st, ops));
      } else {
        EvolvesTransitively(Run(tx, st, ops[..i]), Run(tx, st, before), Run(tx, st, ops));
      }
    }
  }

  lemma EvolvesReflexively(st: Auth)
    ensures Evolves(st, st)
  {
  }

  /** The registration at position i of a run went through. */
  ghost predicate Succeeded(tx: Text, st: Auth, ops: seq<Op>, i: int) {
    0 <= i < |ops| && ops[i].Register? && Refusal(tx, Run(tx, st, ops[..i]), ops[i].address, ops[i].invite, ops[i].now).None?
  }

  /** From one position of a run to a later one the state evolves. */
  lemma Between(tx: Text, st: Auth, ops: seq<Op>, i: nat, j: nat)
    requires i <= j <= |ops| && FreshUsers(tx, st, ops)
    ensures Evolves(Run(tx, st, ops[..i]), Run(tx, st, ops[..j]))
  {
    hide Evolves, Step, Run;
    var part := ops[..j];
    assert forall k :: 0 <= k <= j ==> part[..k] == ops[..k];
    RunEvolves(tx, st, part, i);
  }

  lemma StepOf(tx: Text, st: Auth, ops: seq<Op>, i: nat)
    requires i < |ops|
    ensures Run(tx, st, ops[..i + 1]) == Step(tx, Run(tx, st, ops[..i]), ops[i])
  {
    assert ops[..i + 1][..i] == ops[..i];
  }

  /** Main result: an invitation admits at most one user, and only before its expiry. */
  lemma AdmitsAtMostOne(tx: Text, st: Auth, ops: seq<Op>, i: nat, j: nat)
    requires FreshUsers(tx, st, ops) && i < |ops| && j < |ops|
    requires Succeeded(tx, st, ops, i) && Succeeded(tx, st, ops, j)
    requires Invited(ops[i].invite) && ops[i].invite == ops[j].invite
    ensures i == j
    ensures var token := ops[i].invite.value;
            token in Run(tx, st, ops[..i]).invitations && ops[i].now < Run(tx, st, ops[..i]).invitations[token].expiresAt
  {
    hide Evolves, Run, Step;
    if i < j {
      SpentOnce(tx, st, ops, i, j);
    } else if j < i {
      SpentOnce(tx, st, ops, j, i);
    }
  }

  lemma SpentOnce(tx: Text, st: Auth, ops: seq<Op>, i: nat, j: nat)
    requires FreshUsers(tx, st, ops) && i < j < |ops| && ops[j].Register?
    requires Succeeded(tx, st, ops, i) && Invited(ops[i].invite) && ops[i].invite == ops[j].invite
    ensures !Succeeded(tx, st, ops, j)
  {
    hide Run;
    var token := ops[i].invite.value;
    StepOf(tx, st, ops, i);
    Between(tx, st, ops, i + 1, j);
    assert Run(tx, st, ops[..i + 1]).invitations[token].status == Accepted;
  }

  /** The registration presents a pending invitation before its expiry, with the email it was
      issued for, if it was issued for one. */
  ghost predicate AdmittedBy(tx: Text, st: Auth, op: Op, token: string)
    requires op.Register?
  {
    token in st.invitations &&
    var inv := st.invitations[token];
    && inv.status == Pending && op.now < inv.expiresAt
    && (inv.email.Some? && inv.email.value != "" ==> tx.lower(inv.email.value) == tx.Normalize(op.address))
  }

  /** The foreign key of memberships. */
  ghost predicate MembersExist(st: Auth) {
    forall m :: m in st.memberships ==> m.user in st.users
  }

  lemma {:induction false} RunKeepsMembers(tx: Text, st: Auth, ops: seq<Op>)
    requires MembersExist(st)
    ensures MembersExist(Run(tx, st, ops))
  {
    if ops != [] {
      hide Run;
      var n := |ops| - 1;
      RunKeepsMembers(tx, st, ops[..n]);
      assert ops[..n + 1] == ops;
      StepOf(tx, st, ops, n);
      StepKeepsMembers(tx, Run(tx, st, ops[..n]), ops[n]);
    } else {
      EmptyRun(tx, st);
    }
  }

  lemma StepKeepsMembers(tx: Text, st: Auth, op: Op)
    requires MembersExist(st)
    ensures MembersExist(Step(tx, st, op))
  {
    hide HasMember, Refusal;
  }

  /** Main result: an invitation found accepted was accepted by a successful registration of the
      run, and by `AdmitsAtMostOne` by exactly one; that registration came in time and with the
      right email, and made its user a member of the invitation's workspace in the invitation's
      role (unless that user, being new, somehow was a member, which the foreign key excludes). */
  lemma {:induction false} AcceptedByRegistration(tx: Text, st: Auth, ops: seq<Op>, token: string) returns (i: nat)
    requires FreshUsers(tx, st, ops)
    requires token in Run(tx, st, ops).invitations && Run(tx, st, ops).invitations[token].status == Accepted
    requires token !in st.invitations || st.invitations[token].status != Accepted
    ensures Succeeded(tx, st, ops, i) && ops[i].invite == Some(token)
    ensures var before, after := Run(tx, st, ops[..i]), Run(tx, st, ops[..i + 1]);
            && AdmittedBy(tx, before, ops[i], token) && ops[i].user in after.users
            && after.users[ops[i].user] == tx.Normalize(ops[i].address)
            && token in after.invitations && after.invitations[token].acceptedAt == Some(ops[i].done)
            && var m := Member(before.invitations[token].workspace, ops[i].user);
               && after.memberships == (if m in before.memberships then before.memberships
                                        else before.memberships[m := before.invitations[token].role])
               && (MembersExist(st) ==> after.memberships == before.memberships[m := before.invitations[token].role])
  {
    hide Run, FreshUsers, HasMember, MembersExist, Step, AdmittedBy, Refusal;
    if ops == [] {
      EmptyRun(tx, st);
    } else {
      var n := |ops| - 1;
      var before := Run(tx, st, ops[..n]);
      assert ops[..n + 1] == ops;
      StepOf(tx, st, ops, n);
      if token in before.invitations && before.invitations[token].status == Accepted {
        PrefixIsFresh(tx, st, ops, n);
        i := AcceptedByRegistration(tx, st, ops[..n], token);
        assert ops[..n][..i] == ops[..i] && ops[..n][..i + 1] == ops[..i + 1];
      } else {
        i := n;
        NewUser(tx, st, ops, n);
        AcceptedHere(tx, before, ops[n], token);
        if MembersExist(st) {
          RunKeepsMembers(tx, st, ops[..n]);
          NotYetMember(before, ops[n].user);
        }
      }
    }
  }

  lemma NewUser(tx: Text, st: Auth, ops: seq<Op>, i: nat)
    requires FreshUsers(tx, st, ops) && i < |ops|
    ensures ops[i].Register? ==> ops[i].user !in Run(tx, st, ops[..i]).users
  {
    hide Run;
  }

  lemma NotYetMember(st: Auth, user: nat)
    requires MembersExist(st) && user !in st.users
    ensures forall m :: m in st.memberships ==> m.user != user
  {
  }

  lemma EmptyRun(tx: Text, st: Auth)
    ensures Run(tx, st, []) == st
  {
  }

  lemma PrefixIsFresh(tx: Text, st: Auth, ops: seq<Op>, n: nat)
    requires FreshUsers(tx, st, ops) && n <= |ops|
    ensures FreshUsers(tx, st, ops[..n])
  {
    hide Run;
    assert forall j :: 0 <= j <= n ==> ops[..n][..j] == ops[..j];
  }

  /** Only a successful registration with its token makes an invitation accepted. */
  lemma AcceptedHere(tx: Text, st: Auth, op: Op, token: string)
    requires token in Step(tx, st, op).invitations && Step(tx, st, op).invitations[token].status == Accepted
    requires token !in st.invitations || st.invitations[token].status != Accepted
    ensures op.Register? && Refusal(tx, st, op.address, op.invite, op.now).None? && op.invite == Some(token)
    ensures AdmittedBy(tx, st, op, token)
    ensures op.user in Step(tx, st, op).users && Step(tx, st, op).users[op.user] == tx.Normalize(op.address)
    ensures Step(tx, st, op).invitations[token].acceptedAt == Some(op.done)
    ensures var m := Member(st.invitations[token].workspace, op.user);
            Step(tx, st, op).memberships == if m in st.memberships then st.memberships
                                            else st.memberships[m := st.invitations[token].role]
  {
    hide HasMember;
    assert op.Register?;
  }

  /** The role a successful registration was given in its workspace. */
  ghost predicate MadeOwner(tx: Text, st: Auth, ops: seq<Op>, i: nat, workspace: nat)
    requires i < |ops| && ops[i].Register?
  {
    var after := Run(tx, st, ops[..i + 1]);
    var m := Member(workspace, ops[i].user);
    m !in Run(tx, st, ops[..i]).memberships && m in after.memberships && after.memberships[m] == Owner
  }

  /** Main result: registration without an invitation makes an owner at most once. */
  lemma FirstOwnerOnly(tx: Text, st: Auth, ops: seq<Op>, i: nat, j: nat, v: nat, w: nat)
    requires FreshUsers(tx, st, ops) && i < |ops| && j < |ops|
    requires Succeeded(tx, st, ops, i) && !Invited(ops[i].invite) && MadeOwner(tx, st, ops, i, v)
    requires Succeeded(tx, st, ops, j) && !Invited(ops[j].invite) && MadeOwner(tx, st, ops, j, w)
    ensures i == j && v == w
  {
    JoinsDefault(tx, st, ops, i, v);
    JoinsDefault(tx, st, ops, j, w);
    if i < j {
      LaterNotOwner(tx, st, ops, i, j, v, w);
    } else if j < i {
      LaterNotOwner(tx, st, ops, j, i, w, v);
    }
  }

  lemma JoinsDefault(tx: Text, st: Auth, ops: seq<Op>, i: nat, workspace: nat)
    requires i < |ops| && Succeeded(tx, st, ops, i) && !Invited(ops[i].invite) && MadeOwner(tx, st, ops, i, workspace)
    ensures Run(tx, st, ops[..i + 1]).defaultWorkspace == Some(workspace)
    ensures !HasMember(Run(tx, st, ops[..i]), workspace)
  {
    hide Run, HasMember;
    StepOf(tx, st, ops, i);
    var before := Run(tx, st, ops[..i]);
    SameMembers(before, WithUser(before, ops[i].user, tx.Normalize(ops[i].address)));
  }

  lemma SameMembers(a: Auth, b: Auth)
    requires a.memberships == b.memberships
    ensures forall w :: HasMember(a, w) <==> HasMember(b, w)
  {
  }

  lemma LaterNotOwner(tx: Text, st: Auth, ops: seq<Op>, i: nat, j: nat, v: nat, w: nat)
    requires FreshUsers(tx, st, ops) && i < j < |ops| && ops[i].Register? && ops[j].Register?
    requires Succeeded(tx, st, ops, i) && !Invited(ops[i].invite) && MadeOwner(tx, st, ops, i, v)
    requires Succeeded(tx, st, ops, j) && !Invited(ops[j].invite)
    ensures !MadeOwner(tx, st, ops, j, w)
  {
    hide Run, Step, Refusal;
    JoinsDefault(tx, st, ops, i, v);
    Between(tx, st, ops, i + 1, j);
    Between(tx, st, ops, i + 1, j + 1);
    assert Member(v, ops[i].user) in Run(tx, st, ops[..j]).memberships;
    assert HasMember(Run(tx, st, ops[..j]), v);
    if MadeOwner(tx, st, ops, j, w) {
      JoinsDefault(tx, st, ops, j, w);
    }
  }

  /** Main result: whom an invitation admits. While it is pending and in time, and the address is
      not registered yet, an invitation issued for an email admits exactly the addresses that
      normalize to that email in lower case; without an email it admits everyone. */
  lemma InvitationAdmits(tx: Text, st: Auth, address: string, token: string, now: real)
    requires token != "" && token in st.invitations && tx.Normalize(address) !in st.users.Values
    requires st.invitations[token].status == Pending && now < st.invitations[token].expiresAt
    ensures var issued := st.invitations[token].email.GetOr("");
            Refusal(tx, st, address, Some(token), now).None? <==> issued == "" || tx.lower(issued) == tx.Normalize(address)
  {
  }

  /** So an invitation is usable at all exactly when its email has no space around it: addresses are
      stripped, the invitation's email is not. */
  lemma InvitationIsUsable(tx: Text, issued: string)
    requires tx.Sane()
    ensures (exists address :: tx.lower(issued) == tx.Normalize(address)) <==> tx.Trimmed(issued)
  {
    if tx.Trimmed(issued) {
      assert tx.lower(issued) == tx.Normalize(issued);
    }
    if address :| tx.lower(issued) == tx.Normalize(address) {
      assert tx.Trimmed(tx.strip(address));
    }
  }

  /** Through the service no invitation is ever marked expired: the only place that marks one is on
      the way to a refusal. */
  lemma {:induction false} ServiceNeverMarksExpired(tx: Text, st: Auth, ops: seq<Op>, token: string)
    requires forall i :: 0 <= i < |ops| ==> !ops[i].Verify? && (ops[i].Register? ==> ops[i].service)
    requires token !in st.invitations || st.invitations[token].status != Expired
    ensures token in Run(tx, st, ops).invitations ==> Run(tx, st, ops).invitations[token].status != Expired
  {
    if ops != [] {
      hide Run, HasMember;
      var n := |ops| - 1;
      ServiceNeverMarksExpired(tx, st, ops[..n], token);
      assert ops[..n + 1] == ops;
      StepOf(tx, st, ops, n);
    }
  }

  /** `accept_invitation` checks nothing itself: it keeps the lifecycle exactly for invitations
      that are pending (or already accepted at that very time). Registration, its only caller,
      meets this by verifying first. */
  lemma AcceptNeedsPending(st: Auth, token: string, now: real)
    requires token in st.invitations
    ensures Evolves(st, AcceptedAt(st, token, now))
            <==> var inv := st.invitations[token];
                 inv.status == Pending || (inv.status == Accepted && inv.acceptedAt == Some(now))
  {
    if Evolves(st, AcceptedAt(st, token, now)) {
      assert token in st.invitations;
    }
  }

  // ---------------------------------------------------------------- registration, said about tables

  /** Why a registration is refused: a user has the stripped, lower-case address; or a token is given
      that names no pending invitation, or one past its date; or one for another email. */
  lemma RefusedIff(tx: Text, st: Auth, address: string, token: Option<string>, now: real)
    ensures var email := tx.lower(tx.strip(address));
            var taken := exists u :: u in st.users && st.users[u] == email;
            var given := token.Some? && token.value != "";
            var usable := given && token.value in st.invitations && st.invitations[token.value].status == Pending
                          && now < st.invitations[token.value].expiresAt;
            var mine := usable && (var issued := st.invitations[token.value].email.GetOr("");
                                   issued == "" || tx.lower(issued) == email);
            Refusal(tx, st, address, token, now)
            == if taken then Some(EmailTaken) else if !given then None
               else if !usable then Some(BadInvitation) else if !mine then Some(WrongEmail) else None
  {
    var email := tx.lower(tx.strip(address));
    assert email in st.users.Values <==> exists u :: u in st.users && st.users[u] == email;
  }

  /** What verification answers and does: it returns a pending invitation in time, of the workspace if
      one is given; one that is pending but past its date becomes expired, and nothing else changes. */
  lemma VerifiedIs(st: Auth, token: string, workspace: Option<nat>, now: real)
    ensures var after := Verified(st, token, workspace, now);
            var pending := token in st.invitations && st.invitations[token].status == Pending
                           && (workspace.None? || st.invitations[token].workspace == workspace.value);
            && Admits(st, token, workspace, now)
               == (if pending && now < st.invitations[token].expiresAt then Some(st.invitations[token]) else None)
            && after.users == st.users && after.memberships == st.memberships && after.defaultWorkspace == st.defaultWorkspace
            && after.invitations.Keys == st.invitations.Keys
            && forall t :: t in st.invitations ==>
                 after.invitations[t] == if t == token && pending && st.invitations[t].expiresAt <= now
                                         then st.invitations[t].(status := Expired) else st.invitations[t]
  {
  }

  /** A refused registration adds nobody. */
  lemma RefusedAddsNobody(tx: Text, st: Auth, op: Op)
    requires op.Register? && Refusal(tx, st, op.address, op.invite, op.now).Some?
    ensures var after := Step(tx, st, op);
            after.users == st.users && after.memberships == st.memberships && after.defaultWorkspace == st.defaultWorkspace
  {
    hide HasMember, Refusal;
  }

  /** Main result: what an uninvited registration does. It adds the new user, under the stripped and
      lower-case address, and exactly one membership: in the default workspace, as its owner if nobody
      is a member of that yet, and as a viewer otherwise. */
  lemma UninvitedJoins(tx: Text, st: Auth, ops: seq<Op>, i: nat)
    requires FreshUsers(tx, st, ops) && MembersExist(st) && Succeeded(tx, st, ops, i)
    requires ops[i].invite.None? || ops[i].invite == Some("")
    ensures var before, after := Run(tx, st, ops[..i]), Run(tx, st, ops[..i + 1]);
            && after.users == before.users[ops[i].user := tx.lower(tx.strip(ops[i].address))]
            && after.invitations == before.invitations
            && after.defaultWorkspace.Some? && (before.defaultWorkspace.Some? ==> after.defaultWorkspace == before.defaultWorkspace)
            && var w := after.defaultWorkspace.value;
               after.memberships == before.memberships[Member(w, ops[i].user) :=
                 if exists m :: m in before.memberships && m.workspace == w then Viewer else Owner]
  {
    hide Run, FreshUsers, MembersExist;
    StepOf(tx, st, ops, i);
    NewUser(tx, st, ops, i);
    RunKeepsMembers(tx, st, ops[..i]);
    NotYetMember(Run(tx, st, ops[..i]), ops[i].user);
  }

  /** Hence only the first of them can make an owner. */
  lemma LaterAreViewers(tx: Text, st: Auth, ops: seq<Op>, i: nat, j: nat)
    requires FreshUsers(tx, st, ops) && MembersExist(st) && i < j
    requires Succeeded(tx, st, ops, i) && (ops[i].invite.None? || ops[i].invite == Some(""))
    requires Succeeded(tx, st, ops, j) && (ops[j].invite.None? || ops[j].invite == Some(""))
    ensures var after := Run(tx, st, ops[..j + 1]);
            after.defaultWorkspace.Some?
            && var m := Member(after.defaultWorkspace.value, ops[j].user);
               m in after.memberships && after.memberships[m] == Viewer
  {
    hide Run, FreshUsers, MembersExist, Refusal;
    UninvitedJoins(tx, st, ops, i);
    UninvitedJoins(tx, st, ops, j);
    Between(tx, st, ops, i + 1, j);
    Between(tx, st, ops, i + 1, j + 1);
    var w := Run(tx, st, ops[..i + 1]).defaultWorkspace.value;
    assert Member(w, ops[i].user) in Run(tx, st, ops[..j]).memberships;
  }

  /** Before any registration succeeds nobody joins. */
  lemma {:induction false} NobodyJoins(tx: Text, st: Auth, ops: seq<Op>)
    requires forall j :: 0 <= j < |ops| ==> !Succeeded(tx, st, ops, j)
    ensures Run(tx, st, ops).memberships == st.memberships
  {
    if ops == [] {
      EmptyRun(tx, st);
    } else {
      hide Run, Refusal, HasMember;
      var n := |ops| - 1;
      assert ops[..n + 1] == ops && forall j :: 0 <= j <= n ==> ops[..n][..j] == ops[..j];
      assert forall j :: 0 <= j < n && Succeeded(tx, st, ops[..n], j) ==> Succeeded(tx, st, ops, j);
      NobodyJoins(tx, st, ops[..n]);
      StepOf(tx, st, ops, n);
      assert !Succeeded(tx, st, ops, n);
      if ops[n].Register? {
        RefusedAddsNobody(tx, Run(tx, st, ops[..n]), ops[n]);
      }
    }
  }

  /** Main result: an empty installation gets its owner. If the first successful registration of a run
      that starts without members is an uninvited one, it makes the owner of the default workspace. */
  lemma EmptyInstallationGetsOwner(tx: Text, st: Auth, ops: seq<Op>, i: nat)
    requires FreshUsers(tx, st, ops) && st.memberships == map[]
    requires Succeeded(tx, st, ops, i) && (ops[i].invite.None? || ops[i].invite == Some(""))
    requires forall j :: 0 <= j < i ==> !Succeeded(tx, st, ops, j)
    ensures var after := Run(tx, st, ops[..i + 1]);
            after.defaultWorkspace.Some? && after.memberships == map[Member(after.defaultWorkspace.value, ops[i].user) := Owner]
  {
    hide Run, FreshUsers, Refusal;
    assert forall j :: 0 <= j < i ==> ops[..i][..j] == ops[..j];
    assert forall j :: 0 <= j < i && Succeeded(tx, st, ops[..i], j) ==> Succeeded(tx, st, ops, j);
    NobodyJoins(tx, st, ops[..i]);
    UninvitedJoins(tx, st, ops, i);
  }

  /** An invitation that was not there at the start has the terms it was created with. */
  lemma {:induction false} CreatedTerms(tx: Text, st: Auth, ops: seq<Op>, token: string) returns (c: nat)
    requires FreshUsers(tx, st, ops) && token in Run(tx, st, ops).invitations && token !in st.invitations
    ensures c < |ops| && ops[c].Create? && ops[c].token == token
    ensures var inv := Run(tx, st, ops).invitations[token];
            inv.workspace == ops[c].workspace && inv.email == ops[c].email && inv.role == ops[c].role
            && inv.expiresAt == ops[c].expiresAt
  {
    if ops == [] {
      EmptyRun(tx, st);
    } else {
      hide Run, FreshUsers, HasMember, Refusal, Step, Evolves;
      var n := |ops| - 1;
      var before := Run(tx, st, ops[..n]);
      assert ops[..n + 1] == ops;
      StepOf(tx, st, ops, n);
      PrefixIsFresh(tx, st, ops, n);
      if token in before.invitations {
        c := CreatedTerms(tx, st, ops[..n], token);
        NewUser(tx, st, ops, n);
        TermsStay(tx, before, ops[n], token);
      } else {
        c := n;
        CreatedHere(tx, before, ops[n], token);
      }
    }
  }

  lemma TermsStay(tx: Text, st: Auth, op: Op, token: string)
    requires token in st.invitations && (op.Register? ==> op.user !in st.users)
    ensures token in Step(tx, st, op).invitations && SameTerms(st.invitations[token], Step(tx, st, op).invitations[token])
  {
    hide EmailsUnique, Step;
    StepEvolves(tx, st, op);
  }

  lemma CreatedHere(tx: Text, st: Auth, op: Op, token: string)
    requires token !in st.invitations && token in Step(tx, st, op).invitations
    ensures op.Create? && op.token == token
    ensures Step(tx, st, op).invitations[token] == Invitation(op.workspace, op.email, op.role, Pending, op.expiresAt, None)
  {
    hide HasMember;
  }

  /** Main result: from creation to membership. An invitation of the run found accepted was created by
      one of its operations, and accepted by a registration that came before the date given there, with
      the email given there, and that made its new user a member of the workspace and in the role
      given there. */
  lemma InvitedAsCreated(tx: Text, st: Auth, ops: seq<Op>, token: string) returns (c: nat, i: nat)
    requires FreshUsers(tx, st, ops) && MembersExist(st) && token !in st.invitations
    requires token in Run(tx, st, ops).invitations && Run(tx, st, ops).invitations[token].status == Accepted
    ensures c < i < |ops| && ops[c].Create? && ops[c].token == token
    ensures ops[i].Register? && ops[i].invite == Some(token) && ops[i].now < ops[c].expiresAt
    ensures ops[c].email.GetOr("") == "" || tx.lower(ops[c].email.value) == tx.lower(tx.strip(ops[i].address))
    ensures var before, after := Run(tx, st, ops[..i]), Run(tx, st, ops[..i + 1]);
            after.memberships == before.memberships[Member(ops[c].workspace, ops[i].user) := ops[c].role]
            && ops[i].user in after.users && after.users[ops[i].user] == tx.lower(tx.strip(ops[i].address))
            && token in after.invitations && after.invitations[token].acceptedAt == Some(ops[i].done)
  {
    hide Run, FreshUsers, HasMember, Refusal, Step;
    i := AcceptedByRegistration(tx, st, ops, token);
    PrefixIsFresh(tx, st, ops, i);
    c := CreatedTerms(tx, st, ops[..i], token);
    assert ops[..i][c] == ops[c];
  }
}
