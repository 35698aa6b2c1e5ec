/**
 * electron-app/handlers/authHandlers.ts, `auth:restore-session`: the localStorage token, then the session file, then
 * the migration of an old session file. The answers of the authentication service are inputs.
 */
module RestoreSession {
  import opened Text
  import opened DesktopSession
  import opened StoredSession

  datatype User = User(id: int, role: Role)
  /** `validateSession`: a user, `null`, or an exception. */
  datatype Validation = Valid(user: User) | Invalid | Threw
  datatype UserLookup = Found(user: User) | Missing | LookupThrew
  datatype Login = LoggedIn(user: User, token: string) | LoginRefused | LoginThrew

  /** Everything the handler learns from outside, call by call: answers, failures and clock readings. */
  datatype World = World(
    onToken: Validation, onFile: Validation, lookup: UserLookup, login: Login,
    readAt: int, againAt: int, writtenAt: int, boundAt: int, readFails: bool, unlinkFails: bool,
    clearFails: bool, againFails: bool, againUnlinkFails: bool, write: WriteFault, legacyClearFails: bool)

  datatype Answer = Restored(user: User, token: string) | NoSession | Failed

  datatype Desk = Desk(sessions: Store, disk: Disk)

  predicate HasToken(s: Option<Stored>) {
    s.Some? && s.value.token != ""
  }

  predicate IsLegacy(s: Option<Stored>) {
    s.Some? && s.value.token == ""
  }

  function Bind(desk: Desk, w: int, u: User, now: int): Desk {
    desk.(sessions := Step(desk.sessions, SignIn(w, u.id, u.role, now)))
  }

  function Cleared(desk: Desk, unlinkFails: bool): Desk {
    desk.(disk := AfterClear(desk.disk, unlinkFails))
  }

  /** The migration of an old session file. */
  function Migration(env: Env, desk: Desk, w: int, io: World): (Desk, Answer) {
    var legacy := ReadResult(env, desk.disk, io.againAt, io.againFails);
    var read := desk.(disk := AfterRead(env, desk.disk, io.againAt, io.againFails, io.againUnlinkFails));
    if !IsLegacy(legacy) then (read, NoSession)
    else if io.lookup.LookupThrew? || (io.lookup.Found? && io.login.LoginThrew?) then (read, Failed)
    else if io.lookup.Missing? || io.login.LoginRefused? || io.login.token == "" then
      (Cleared(read, io.legacyClearFails), NoSession)
    else
      var written := AfterWrite(env, read.disk, Stored(io.login.user.id, io.login.token, io.writtenAt), io.write);
      if MayWrite(env) && io.write == Wrote then
        (Bind(read.(disk := written), w, io.lookup.user, io.boundAt), Restored(io.login.user, io.login.token))
      else (read.(disk := written), Failed)
  }

  /** The whole flow, as a function of the state and of what the handler learns. */
  function Flow(env: Env, desk: Desk, w: int, token: string, io: World): (Desk, Answer) {
    if token != "" && io.onToken.Valid? then
      (Bind(desk, w, io.onToken.user, io.boundAt), Restored(io.onToken.user, token))
    else
      var stored := ReadResult(env, desk.disk, io.readAt, io.readFails);
      var read := desk.(disk := AfterRead(env, desk.disk, io.readAt, io.readFails, io.unlinkFails));
      if HasToken(stored) && io.onFile.Valid? then
        (Bind(read, w, io.onFile.user, io.boundAt), Restored(io.onFile.user, stored.value.token))
      else if HasToken(stored) && io.onFile.Invalid? then Migration(env, Cleared(read, io.clearFails), w, io)
      else Migration(env, read, w, io)
  }

  ghost function View(sessions: SessionMap, file: SessionFile): Desk
    reads sessions, file
  {
    Desk(sessions.View(), file.View())
  }

  method MigrateLegacy(sessions: SessionMap, file: SessionFile, w: int, io: World) returns (answer: Answer)
    requires sessions.Valid()
    modifies sessions, file
    ensures sessions.Valid()
    ensures (View(sessions, file), answer) == Migration(file.env, old(View(sessions, file)), w, io)
  {
    var legacy := file.GetEncryptedSession(io.againAt, io.againFails, io.againUnlinkFails);
    if legacy.Some? && legacy.value.token == "" {
      if io.lookup.LookupThrew? {
        return Failed;
      }
      if io.lookup.Found? {
        if io.login.LoginThrew? {
          return Failed;
        }
        if io.login.LoggedIn? && io.login.token != "" {
          var ok := file.WriteSessionFile(Stored(io.login.user.id, io.login.token, io.writtenAt), io.write);
          if !ok {
            return Failed;
          }
          sessions.SetSession(w, io.lookup.user.id, io.lookup.user.role, io.boundAt);
          return Restored(io.login.user, io.login.token);
        }
      }
      file.ClearEncryptedSession(io.legacyClearFails);
    }
    return NoSession;
  }

  method Restore(sessions: SessionMap, file: SessionFile, w: int, token: string, io: World) returns (answer: Answer)
    requires sessions.Valid()
    modifies sessions, file
    ensures sessions.Valid()
    ensures (View(sessions, file), answer) == Flow(file.env, old(View(sessions, file)), w, token, io)
  {
    if token != "" {
      if io.onToken.Valid? {
        sessions.SetSession(w, io.onToken.user.id, io.onToken.user.role, io.boundAt);
        return Restored(io.onToken.user, token);
      }
    }
    var stored := file.GetEncryptedSession(io.readAt, io.readFails, io.unlinkFails);
    if stored.Some? && stored.value.token != "" {
      if io.onFile.Valid? {
        sessions.SetSession(w, io.onFile.user.id, io.onFile.user.role, io.boundAt);
        return Restored(io.onFile.user, stored.value.token);
      } else if !io.onFile.Threw? {
        file.ClearEncryptedSession(io.clearFails);
      }
    }
    answer := MigrateLegacy(sessions, file, w, io);
  }

  // ----- what the flow promises -----

  /** The desk after the call has the window newly bound to `u`, and no other window changed. */
  predicate Binds(before: Desk, after: Desk, w: int, u: User, now: int) {
    after.sessions.Lookup(w) == Some(SessionData(u.id, u.role, now, None)) &&
    after.sessions == before.sessions.Set(w, SessionData(u.id, u.role, now, None))
  }

  /** The localStorage token settles the matter. */
  predicate ByToken(token: string, io: World) {
    token != "" && io.onToken.Valid?
  }

  /** Neither the localStorage token nor the token of the file settles the matter. */
  predicate ByMigration(env: Env, desk: Desk, token: string, io: World) {
    !ByToken(token, io) && !(HasToken(ReadResult(env, desk.disk, io.readAt, io.readFails)) && io.onFile.Valid?)
  }

  /**
   * For every state and every combination of answers. A reported success bound the window, in this call, to the
   * reported user, except exactly where a migration's login answers for another user than the one looked up, who is
   * then the one bound. Without success no session changed. A valid localStorage token succeeds and leaves the file and
   * its cache alone.
   */
  lemma SuccessMeansBound(env: Env, desk: Desk, w: int, token: string, io: World)
    ensures var (after, answer) := Flow(env, desk, w, token, io);
            var migrated := ByMigration(env, desk, token, io);
            (answer.Restored? && migrated ==>
               io.lookup.Found? && io.login.LoggedIn? && answer.user == io.login.user &&
               Binds(desk, after, w, io.lookup.user, io.boundAt)) &&
            (answer.Restored? ==>
               (Binds(desk, after, w, answer.user, io.boundAt) <==> !(migrated && io.login.user != io.lookup.user))) &&
            (!answer.Restored? ==> after.sessions == desk.sessions) &&
            (ByToken(token, io) ==> answer == Restored(io.onToken.user, token) && after.disk == desk.disk)
  {
  }

  /** The token of the file settles the matter. */
  predicate ByFile(env: Env, desk: Desk, token: string, io: World) {
    !ByToken(token, io) && HasToken(ReadResult(env, desk.disk, io.readAt, io.readFails)) && io.onFile.Valid?
  }

  /** The migration finds a session of the old format. */
  predicate FindsLegacy(env: Env, desk: Desk, token: string, io: World) {
    ByMigration(env, desk, token, io) &&
    IsLegacy(ReadResult(env, DiskAtMigration(env, desk.disk, io), io.againAt, io.againFails))
  }

  /** Its user is found and logged in with a token. */
  predicate LogsIn(io: World) {
    io.lookup.Found? && io.login.LoggedIn? && io.login.token != ""
  }

  /** The new token has been written. */
  predicate WritesDone(env: Env, io: World) {
    MayWrite(env) && io.write == Wrote
  }

  /** A call of the migration throws: the lookup, the login, or the write of the new token. */
  predicate MigrationThrows(env: Env, io: World) {
    io.lookup.LookupThrew? || (io.lookup.Found? && io.login.LoginThrew?) || (LogsIn(io) && !WritesDone(env, io))
  }

  /**
   * The answer, for every state and every combination of answers and failures. Success exactly in three ways: the
   * localStorage token is valid, or the file gives a token the service accepts, or an old session is migrated; each
   * reports and binds its own user and token. Failure exactly where a call of the migration throws. No session
   * otherwise.
   */
  lemma AnswerIff(env: Env, desk: Desk, w: int, token: string, io: World)
    ensures var (after, answer) := Flow(env, desk, w, token, io);
            var stored := ReadResult(env, desk.disk, io.readAt, io.readFails);
            var legacy := FindsLegacy(env, desk, token, io);
            (answer.Restored? <==>
             ByToken(token, io) || ByFile(env, desk, token, io) || (legacy && LogsIn(io) && WritesDone(env, io))) &&
            (answer.Failed? <==> legacy && MigrationThrows(env, io)) &&
            (ByToken(token, io) ==>
               answer == Restored(io.onToken.user, token) && Binds(desk, after, w, io.onToken.user, io.boundAt)) &&
            (ByFile(env, desk, token, io) ==>
               answer == Restored(io.onFile.user, stored.value.token) &&
               Binds(desk, after, w, io.onFile.user, io.boundAt) && after.disk.file == desk.disk.file) &&
            (legacy && LogsIn(io) && WritesDone(env, io) ==>
               answer == Restored(io.login.user, io.login.token) && Binds(desk, after, w, io.lookup.user, io.boundAt))
  {
  }

  /**
   * What becomes of an old session file: replaced by one with the new token when the migration succeeds; deleted, if
   * that works, when the user is gone or the login refuses or gives no token; and kept when a lookup or a login throws.
   */
  lemma LegacyFate(env: Env, desk: Desk, w: int, token: string, io: World)
    requires FindsLegacy(env, desk, token, io)
    ensures var (after, answer) := Flow(env, desk, w, token, io);
            (answer.Restored? ==>
               Decode(env, after.disk.file) == Some(Stored(io.login.user.id, io.login.token, io.writtenAt))) &&
            (answer.NoSession? ==>
               after.disk.file == Absent || (io.legacyClearFails && after.disk.file == desk.disk.file)) &&
            (io.lookup.LookupThrew? || (io.lookup.Found? && io.login.LoginThrew?) ==>
               after.disk.file == desk.disk.file)
  {
  }

  /** The exception is real: an old session file, whose user is looked up as `a` while the login answers for `b`. */
  lemma MigrationBindsAnother(w: int, a: User, b: User, s: Stored, io: World)
    requires s.token == "" && !Expired(s, io.readAt) && !io.readFails && a != b
    requires io.lookup == Found(a) && io.login == LoggedIn(b, "token") && io.write == Wrote
    ensures var env, desk := Env(true, true), Desk(Store([], map[]), Disk(Encrypted(s), Unread));
            var (after, answer) := Flow(env, desk, w, "", io);
            answer == Restored(b, "token") && Binds(desk, after, w, a, io.boundAt) &&
            !Binds(desk, after, w, b, io.boundAt)
  {
  }

  /** Once the file has given a token, a validation that throws never costs the file, and asks for a new login. */
  lemma ThrowKeepsFile(env: Env, desk: Desk, w: int, token: string, io: World)
    requires HasToken(ReadResult(env, desk.disk, io.readAt, io.readFails)) && io.onFile.Threw?
    ensures var (after, answer) := Flow(env, desk, w, token, io);
            after.disk.file == desk.disk.file && (!ByToken(token, io) ==> answer == NoSession)
  {
    var d := AfterRead(env, desk.disk, io.readAt, io.readFails, io.unlinkFails);
    ReadIsStable(env, desk.disk, io.readAt, io.readFails, io.unlinkFails, io.againAt, io.againFails);
    assert d.cache.Value?;
  }

  /**
   * For a file that gives a token: the flow deletes it exactly when the localStorage token did not work and the service
   * said no to the file's token, and the deletion itself succeeded.
   */
  lemma FileDeletedIff(env: Env, desk: Desk, w: int, token: string, io: World)
    requires desk.disk.file != Absent && HasToken(ReadResult(env, desk.disk, io.readAt, io.readFails))
    ensures var (after, _) := Flow(env, desk, w, token, io);
            (after.disk.file == Absent <==>
             !ByToken(token, io) && io.onFile.Invalid? && !io.clearFails) &&
            (after.disk.file == Absent || after.disk.file == desk.disk.file)
  {
    ReadIsStable(env, desk.disk, io.readAt, io.readFails, io.unlinkFails, io.againAt, io.againFails);
  }

  lemma DiskAgrees(env: Env, d: Disk, io: World, unlinkFails: bool)
    requires Agrees(env, d)
    ensures Agrees(env, AfterClear(d, unlinkFails))
    ensures Agrees(env, AfterRead(env, d, io.readAt, io.readFails, unlinkFails))
    ensures Agrees(env, AfterRead(env, d, io.againAt, io.againFails, unlinkFails))
  {
  }

  /** The migration writes a new token over the old session. */
  predicate WritesToken(env: Env, d: Disk, io: World) {
    IsLegacy(ReadResult(env, d, io.againAt, io.againFails)) && io.lookup.Found? && io.login.LoggedIn? &&
    io.login.token != "" && MayWrite(env)
  }

  predicate FailsHalfWay(fault: WriteFault) {
    fault == FailedTorn || fault == FailedLate
  }

  lemma MigrationAgreesIff(env: Env, desk: Desk, w: int, io: World)
    requires Agrees(env, desk.disk)
    ensures Agrees(env, Migration(env, desk, w, io).0.disk) <==>
            !(WritesToken(env, desk.disk, io) && FailsHalfWay(io.write))
  {
    DiskAgrees(env, desk.disk, io, io.againUnlinkFails);
    DiskAgrees(env, AfterRead(env, desk.disk, io.againAt, io.againFails, io.againUnlinkFails), io, io.legacyClearFails);
  }

  /** The session file as the migration finds it. */
  function DiskAtMigration(env: Env, d: Disk, io: World): Disk {
    var stored := ReadResult(env, d, io.readAt, io.readFails);
    var read := AfterRead(env, d, io.readAt, io.readFails, io.unlinkFails);
    if HasToken(stored) && io.onFile.Invalid? then AfterClear(read, io.clearFails) else read
  }

  /** Whatever fails, the flow keeps cache and file in agreement, except exactly where its own write fails half-way. */
  lemma FlowKeepsAgreementIff(env: Env, desk: Desk, w: int, token: string, io: World)
    requires Agrees(env, desk.disk)
    ensures Agrees(env, Flow(env, desk, w, token, io).0.disk) <==>
            !(ByMigration(env, desk, token, io) && WritesToken(env, DiskAtMigration(env, desk.disk, io), io) &&
              FailsHalfWay(io.write))
  {
    var read := desk.(disk := AfterRead(env, desk.disk, io.readAt, io.readFails, io.unlinkFails));
    DiskAgrees(env, desk.disk, io, io.unlinkFails);
    DiskAgrees(env, read.disk, io, io.clearFails);
    MigrationAgreesIff(env, read, w, io);
    MigrationAgreesIff(env, Cleared(read, io.clearFails), w, io);
  }
}
