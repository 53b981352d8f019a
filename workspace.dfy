/** shieldworkspace: inviting someone to a workspace by email, and creating
    a workspace.  Both handlers open a transaction on the store; the invite
    commits and then mails the invitee. */
module Workspace {
  import opened Base
  import Sql
  import Database
  import Sender

  const DefaultInvitationExpiryIn: Duration := Hour * 24 * 7

  const BeginFailed := "shieldworkspace: failed to begin transaction"
  const FindUserFailed := "shieldworkspace: failed to find user by email"
  const InviteFailed := "shieldworkspace: failed to invite user to workspace"
  const CommitFailed := "shieldworkspace: failed to commit transaction"
  const SendFailed := "shieldworkspace: failed to send workspace invite message"
  const CreateFailed := "shieldworkspace: failed to create workspace"

  /** Config: how long an invitation stays valid.  The logger is not part
      of this model. */
  datatype Config = Config(invitationExpiryIn: Duration)

  /** NewConfig: the options applied to the zero config, then the default
      for an expiry the options left at zero. */
  function NewConfig(opts: seq<Config -> Config>): (c: Config)
    ensures c.invitationExpiryIn != 0
    ensures ApplyOptions(Config(0), opts).invitationExpiryIn != 0 ==>
      c.invitationExpiryIn == ApplyOptions(Config(0), opts).invitationExpiryIn
  {
    var c := ApplyOptions(Config(0), opts);
    c.(invitationExpiryIn := OrDefault(c.invitationExpiryIn, DefaultInvitationExpiryIn))
  }

  /** Without options an invitation is valid for seven days. */
  lemma NewConfigDefaults()
    ensures NewConfig([]) == Config(7 * 24 * Hour)
  {
  }

  // ----------------------------------------------------------------- invite

  datatype Invited = Invited(err: Option<Error>, committed: Sql.Tables, sent: seq<Sender.Message>, idsUsed: nat)

  /** The member id the invite message carries, as written: set only when
      the lookup found no user, and then to the zero id of the row that was
      not found. */
  function MemberIdAsWritten(found: Result<Sql.UserRecord>): Option<Uuid>
  {
    if found.Err? && IsNotFound(found.error) then Some(NilId) else None
  }

  /** The member id the invite message is evidently meant to carry: the id
      of the registered user the email belongs to, and none for an email
      nobody has registered. */
  function MemberId(found: Result<Sql.UserRecord>): Option<Uuid>
  {
    if found.Ok? then Some(found.value.id) else None
  }

  /** As written, a registered invitee is sent no member id, and an unknown
      one is sent the zero id. */
  lemma MemberIdAsWrittenInverted(found: Result<Sql.UserRecord>)
    requires found.Ok? || found.error == NoRows
    ensures found.Ok? ==> MemberIdAsWritten(found) == None
    ensures found.Err? ==> MemberIdAsWritten(found) == Some(NilId)
  {
  }

  /** The corrected member id names the registered user exactly when there
      is one. */
  lemma MemberIdNamesUser(t: Sql.Tables, email: string)
    requires Sql.Valid(t)
    ensures var m := MemberId(Sql.FindUserByEmail(t, email));
      (m.Some? <==> Sql.EmailTaken(t, email)) &&
      (m.Some? ==> m.value in t.users && t.users[m.value].email == email)
  {
  }

  /** The rest of the invite once the lookup has answered: the invitation
      row, the commit and the message, which carries `memberId`. */
  function InviteFor(cfg: Config, faults: map<Database.Stmt, Error>, t: Sql.Tables, workspaceId: Uuid,
                     email: string, memberId: Option<Uuid>, id: Uuid, now: Time, sendFailure: Option<Error>): Invited
  {
    if Database.InviteUserToWorkspaceByEmail in faults then
      Invited(Some(Wrapped(InviteFailed, faults[Database.InviteUserToWorkspaceByEmail])), t, [], 1)
    else
      var t' := Sql.InviteUserToWorkspaceByEmail(t, id, workspaceId, email, now + cfg.invitationExpiryIn);
      if Database.CommitTx in faults then Invited(Some(Wrapped(CommitFailed, faults[Database.CommitTx])), t, [], 1)
      else if sendFailure.Some? then Invited(Some(Wrapped(SendFailed, sendFailure.value)), t', [], 1)
      else Invited(None, t', [Sender.Message(email, Sender.WorkspaceInvite(memberId, email, workspaceId))], 1)
  }

  /** InviteUserToWorkspace as written, given the id the invitation gets
      and whether the sender is down. */
  ghost function InviteSpec(cfg: Config, faults: map<Database.Stmt, Error>, t: Sql.Tables, workspaceId: Uuid,
                            email: string, id: Uuid, now: Time, sendFailure: Option<Error>): Invited
    requires Sql.Valid(t)
  {
    if Database.BeginTx in faults then Invited(Some(Wrapped(BeginFailed, faults[Database.BeginTx])), t, [], 0)
    else
      var u := Database.Outcome(faults, Database.FindUserByEmail, Sql.FindUserByEmail(t, email));
      if u.Err? && !IsNotFound(u.error) then Invited(Some(Wrapped(FindUserFailed, u.error)), t, [], 0)
      else InviteFor(cfg, faults, t, workspaceId, email, MemberIdAsWritten(u), id, now, sendFailure)
  }

  /** InviteUserToWorkspace with the member id corrected. */
  ghost function InviteCorrectedSpec(cfg: Config, faults: map<Database.Stmt, Error>, t: Sql.Tables, workspaceId: Uuid,
                                     email: string, id: Uuid, now: Time, sendFailure: Option<Error>): Invited
    requires Sql.Valid(t)
  {
    if Database.BeginTx in faults then Invited(Some(Wrapped(BeginFailed, faults[Database.BeginTx])), t, [], 0)
    else
      var u := Database.Outcome(faults, Database.FindUserByEmail, Sql.FindUserByEmail(t, email));
      if u.Err? && !IsNotFound(u.error) then Invited(Some(Wrapped(FindUserFailed, u.error)), t, [], 0)
      else InviteFor(cfg, faults, t, workspaceId, email, MemberId(u), id, now, sendFailure)
  }

  /** Whatever the member id, the invite writes the tables only by the
      commit of one invitation row, mails only after that commit, and mails
      exactly on success; on success the row is the last one, for that
      workspace and email, and expires the configured time from now. */
  lemma InviteForOutcome(cfg: Config, faults: map<Database.Stmt, Error>, t: Sql.Tables, workspaceId: Uuid,
                         email: string, memberId: Option<Uuid>, id: Uuid, now: Time, sendFailure: Option<Error>)
    ensures var x := InviteFor(cfg, faults, t, workspaceId, email, memberId, id, now, sendFailure);
      (x.sent != [] <==> x.err.None?) &&
      (x.committed == t ||
       (x.committed.invitations == t.invitations + [Sql.InvitationRow(id, workspaceId, email, now + cfg.invitationExpiryIn)] &&
        x.committed == t.(invitations := x.committed.invitations) &&
        (x.err.None? || x.err == Some(Wrapped(SendFailed, sendFailure.value)))))
    ensures var x := InviteFor(cfg, faults, t, workspaceId, email, memberId, id, now, sendFailure);
      x.err.None? ==> x.sent == [Sender.Message(email, Sender.WorkspaceInvite(memberId, email, workspaceId))]
  {
  }

  /** As written, inviting the email of a registered user sends no member
      id, and inviting an unknown email sends the zero id. */
  lemma InviteSendsInvertedMemberId(cfg: Config, faults: map<Database.Stmt, Error>, t: Sql.Tables, workspaceId: Uuid,
                                    email: string, id: Uuid, now: Time)
    requires Sql.Valid(t) && faults == map[]
    ensures var x := InviteSpec(cfg, faults, t, workspaceId, email, id, now, None);
      x.err.None? &&
      x.sent == [Sender.Message(email, Sender.WorkspaceInvite(if Sql.EmailTaken(t, email) then None else Some(NilId), email, workspaceId))]
  {
  }

  /** The correction changes only the message: the corrected invite fails
      and writes exactly as the one written does. */
  lemma InviteCorrectedAgrees(cfg: Config, faults: map<Database.Stmt, Error>, t: Sql.Tables, workspaceId: Uuid,
                              email: string, id: Uuid, now: Time, sendFailure: Option<Error>)
    requires Sql.Valid(t)
    ensures var x := InviteCorrectedSpec(cfg, faults, t, workspaceId, email, id, now, sendFailure);
      var a := InviteSpec(cfg, faults, t, workspaceId, email, id, now, sendFailure);
      x.err == a.err && x.committed == a.committed && |x.sent| == |a.sent|
  {
  }

  /** Corrected, a successful invite's message names the registered user
      of the email, or no one when the email is unknown. */
  lemma InviteCorrectedNamesMember(cfg: Config, faults: map<Database.Stmt, Error>, t: Sql.Tables, workspaceId: Uuid,
                                   email: string, id: Uuid, now: Time, sendFailure: Option<Error>)
    requires Sql.Valid(t)
    ensures var x := InviteCorrectedSpec(cfg, faults, t, workspaceId, email, id, now, sendFailure);
      x.err.None? && Database.FindUserByEmail !in faults ==>
        exists m :: x.sent == [Sender.Message(email, Sender.WorkspaceInvite(m, email, workspaceId))] &&
          (m.Some? <==> Sql.EmailTaken(t, email)) &&
          (m.Some? ==> m.value in t.users && t.users[m.value].email == email)
  {
    var x := InviteCorrectedSpec(cfg, faults, t, workspaceId, email, id, now, sendFailure);
    if x.err.None? && Database.FindUserByEmail !in faults {
      var u := Sql.FindUserByEmail(t, email);
      InviteForOutcome(cfg, faults, t, workspaceId, email, MemberId(u), id, now, sendFailure);
      MemberIdNamesUser(t, email);
    }
  }

  /** InviteUserToWorkspace: look the email up, store the invitation, commit,
      and mail the invitee.  A lookup error other than no rows aborts; the
      deferred rollback drops the transaction on every early return. */
  method InviteUserToWorkspace(cfg: Config, store: Database.Store, ids: Database.IdSource, outbox: Sender.Outbox,
                               workspaceId: Uuid, email: string, now: Time)
    returns (err: Option<Error>)
    requires !store.inTx && Sql.Valid(store.committed)
    modifies store, ids, outbox
    ensures !store.inTx
    ensures var x := InviteSpec(cfg, store.faults, old(store.committed), workspaceId, email,
                                old(ids.last) + 1, now, outbox.failure);
      err == x.err && store.committed == x.committed && outbox.sent == old(outbox.sent) + x.sent &&
      ids.last == old(ids.last) + x.idsUsed
  {
    ghost var t := store.committed;
    ghost var x := InviteSpec(cfg, store.faults, t, workspaceId, email, ids.last + 1, now, outbox.failure);
    var e := store.Begin();
    if e.Some? {
      return Some(Wrapped(BeginFailed, e.value));
    }
    var invited := store.FindUserByEmail(email);
    if invited.Err? && !IsNotFound(invited.error) {
      store.Rollback();
      return Some(Wrapped(FindUserFailed, invited.error));
    }
    var memberId: Option<Uuid> := None;
    if invited.Err? && IsNotFound(invited.error) {
      memberId := Some(NilId);
    }
    assert memberId == MemberIdAsWritten(invited);
    assert x == InviteFor(cfg, store.faults, t, workspaceId, email, memberId, ids.last + 1, now, outbox.failure);
    err := InviteTx(cfg, store, ids, outbox, workspaceId, email, memberId, now);
  }

  /** The steps of InviteUserToWorkspace after the lookup, in the
      transaction it opened. */
  method InviteTx(cfg: Config, store: Database.Store, ids: Database.IdSource, outbox: Sender.Outbox,
                  workspaceId: Uuid, email: string, memberId: Option<Uuid>, now: Time)
    returns (err: Option<Error>)
    requires store.inTx && store.work == store.committed
    modifies store, ids, outbox
    ensures !store.inTx
    ensures var x := InviteFor(cfg, store.faults, old(store.committed), workspaceId, email, memberId,
                               old(ids.last) + 1, now, outbox.failure);
      err == x.err && store.committed == x.committed && outbox.sent == old(outbox.sent) + x.sent &&
      ids.last == old(ids.last) + x.idsUsed
  {
    var id := ids.Next();
    var e := store.InviteUserToWorkspaceByEmail(id, workspaceId, email, now + cfg.invitationExpiryIn);
    if e.Some? {
      store.Rollback();
      return Some(Wrapped(InviteFailed, e.value));
    }
    e := store.Commit();
    if e.Some? {
      return Some(Wrapped(CommitFailed, e.value));
    }
    e := outbox.Send(Sender.Message(email, Sender.WorkspaceInvite(memberId, email, workspaceId)));
    if e.Some? {
      return Some(Wrapped(SendFailed, e.value));
    }
    err := None;
  }

  // ----------------------------------------------------------------- create

  datatype Created = Created(workspaceId: Uuid, err: Option<Error>, committed: Sql.Tables)

  /** CreateWorkspace as written: the row is inserted under the zero id in
      a transaction that is never committed, so the deferred rollback
      discards it, yet the zero id is returned with no error. */
  function CreateSpec(faults: map<Database.Stmt, Error>, t: Sql.Tables, name: string, ownerId: Uuid): Created
  {
    if Database.BeginTx in faults then Created(NilId, Some(Wrapped(BeginFailed, faults[Database.BeginTx])), t)
    else
      var r := Database.Outcome(faults, Database.CreateWorkspace, Sql.CreateWorkspace(t, NilId, name, ownerId));
      if r.Err? then Created(NilId, Some(Wrapped(CreateFailed, r.error)), t)
      else Created(NilId, None, t)
  }

  /** As written, a reported success leaves no workspace behind: the
      tables are never changed, and the id returned is the zero id. */
  lemma CreateWorkspaceNeverPersists(faults: map<Database.Stmt, Error>, t: Sql.Tables, name: string, ownerId: Uuid)
    ensures var x := CreateSpec(faults, t, name, ownerId);
      x.committed == t && x.workspaceId == NilId
    ensures var x := CreateSpec(faults, t, name, ownerId);
      x.err.None? <==> Database.BeginTx !in faults && Database.CreateWorkspace !in faults && NilId !in t.workspaces
  {
  }

  /** CreateWorkspace as its documentation promises: a fresh id, the row
      committed, and that id returned. */
  function CreateCorrectedSpec(faults: map<Database.Stmt, Error>, t: Sql.Tables, name: string, ownerId: Uuid, id: Uuid): Created
  {
    if Database.BeginTx in faults then Created(NilId, Some(Wrapped(BeginFailed, faults[Database.BeginTx])), t)
    else
      var r := Database.Outcome(faults, Database.CreateWorkspace, Sql.CreateWorkspace(t, id, name, ownerId));
      if r.Err? then Created(NilId, Some(Wrapped(CreateFailed, r.error)), t)
      else if Database.CommitTx in faults then Created(NilId, Some(Wrapped(CommitFailed, faults[Database.CommitTx])), t)
      else Created(id, None, r.value)
  }

  /** Corrected, a reported success means the returned id names a committed
      workspace with that name and owner, and nothing else changed; a
      failure changes nothing. */
  lemma CreateCorrectedPersists(faults: map<Database.Stmt, Error>, t: Sql.Tables, name: string, ownerId: Uuid, id: Uuid)
    ensures var x := CreateCorrectedSpec(faults, t, name, ownerId, id);
      x.err.None? ==>
        x.workspaceId == id && id !in t.workspaces &&
        x.committed == t.(workspaces := t.workspaces[id := Sql.WorkspaceRow(name, ownerId)])
    ensures var x := CreateCorrectedSpec(faults, t, name, ownerId, id);
      x.err.Some? ==> x.committed == t && x.workspaceId == NilId
    ensures var x := CreateCorrectedSpec(faults, t, name, ownerId, id);
      faults == map[] && id !in t.workspaces ==> x.err.None?
  {
  }

  /** CreateWorkspace: begin, insert the row under the zero id, and return
      without committing; the deferred rollback then drops the row. */
  method CreateWorkspace(store: Database.Store, name: string, ownerId: Uuid)
    returns (workspaceId: Uuid, err: Option<Error>)
    requires !store.inTx
    modifies store
    ensures !store.inTx
    ensures var x := CreateSpec(store.faults, old(store.committed), name, ownerId);
      workspaceId == x.workspaceId && err == x.err && store.committed == x.committed
  {
    workspaceId := NilId;
    var e := store.Begin();
    if e.Some? {
      return workspaceId, Some(Wrapped(BeginFailed, e.value));
    }
    var w := store.CreateWorkspace(workspaceId, name, ownerId);
    store.Rollback();
    if w.Err? {
      return workspaceId, Some(Wrapped(CreateFailed, w.error));
    }
    workspaceId := w.value;
    err := None;
  }
}
