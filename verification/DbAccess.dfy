/**
 * Who may change the database path: `database:changePath` (electron-app/handlers/dbHandlers.ts) behind the sessions of
 * electron-app/session.ts. A boot starts a new process, and with it no session.
 */
module DbAccess {
  import opened Text
  import DesktopSession
  import SessionHistory
  import DbPath

  datatype Op =
    | OnSession(op: DesktopSession.Op)
    | ChangeBy(w: int, newPath: string, fault: DbPath.WriteFault, now: int)
    | Boot
    | Vanish(path: string)
    | Appear(path: string)

  datatype Office = Office(sessions: DesktopSession.Store, machine: DbPath.Machine)

  const NOBODY := DesktopSession.Store([], map[])

  /** The handler: the role check with its touch, then the change on its answer. */
  function Step(cfg: DbPath.Config, s: Office, op: Op): Office {
    match op
    case OnSession(o) => s.(sessions := DesktopSession.Step(s.sessions, o))
    case ChangeBy(w, newPath, fault, now) =>
      var admin := DesktopSession.Authorize(s.sessions, w, {DesktopSession.Admin}).Authorized?;
      Office(DesktopSession.Step(s.sessions, DesktopSession.RequireRole(w, {DesktopSession.Admin}, now)),
             DbPath.Step(cfg, s.machine, DbPath.Change(newPath, admin, fault)))
    case Boot => Office(NOBODY, DbPath.Step(cfg, s.machine, DbPath.Boot))
    case Vanish(p) => s.(machine := DbPath.Step(cfg, s.machine, DbPath.Vanish(p)))
    case Appear(p) => s.(machine := DbPath.Step(cfg, s.machine, DbPath.Appear(p)))
  }

  function Run(cfg: DbPath.Config, m: DbPath.Machine, h: seq<Op>): Office {
    if h == [] then Office(NOBODY, m) else Step(cfg, Run(cfg, m, h[..|h| - 1]), h[|h| - 1])
  }

  method ChangePathBy(sessions: DesktopSession.SessionMap, settings: DbPath.PathSettings, w: int, newPath: string,
                      fault: DbPath.WriteFault, now: int)
    returns (success: bool)
    requires sessions.Valid()
    modifies sessions, settings
    ensures sessions.Valid()
    ensures Office(sessions.View(), settings.View()) ==
            Step(settings.cfg, old(Office(sessions.View(), settings.View())), ChangeBy(w, newPath, fault, now))
    ensures success ==> w in old(sessions.data) && old(sessions.data)[w].role == DesktopSession.Admin
  {
    var auth := sessions.RequireRole(w, {DesktopSession.Admin}, now);
    success := settings.ChangePath(newPath, auth.Authorized?, fault);
  }

  /** The session operations since the last boot, the handler's role checks among them. */
  function SessionOps(h: seq<Op>): seq<DesktopSession.Op> {
    if h == [] then []
    else
      var before, op := SessionOps(h[..|h| - 1]), h[|h| - 1];
      match op
      case OnSession(o) => before + [o]
      case ChangeBy(w, _, _, now) => before + [DesktopSession.RequireRole(w, {DesktopSession.Admin}, now)]
      case Boot => []
      case _ => before
  }

  lemma RunSnoc(h: seq<DesktopSession.Op>, o: DesktopSession.Op)
    ensures SessionHistory.Run(h + [o]) == DesktopSession.Step(SessionHistory.Run(h), o)
  {
    assert (h + [o])[..|h|] == h;
  }

  lemma {:induction false} SessionsOf(cfg: DbPath.Config, m: DbPath.Machine, h: seq<Op>)
    ensures Run(cfg, m, h).sessions == SessionHistory.Run(SessionOps(h))
  {
    if h != [] {
      var p, op := h[..|h| - 1], h[|h| - 1];
      SessionsOf(cfg, m, p);
      match op
      case OnSession(o) => RunSnoc(SessionOps(p), o);
      case ChangeBy(w, _, _, now) =>
        RunSnoc(SessionOps(p), DesktopSession.RequireRole(w, {DesktopSession.Admin}, now));
      case _ =>
    }
  }

  /** A sign-in of the window as an admin stands, since the last boot. */
  ghost predicate AdminStands(h: seq<Op>, w: int) {
    exists i, userId :: SessionHistory.StandsAs(SessionOps(h), w, i, DesktopSession.Admin, userId)
  }

  /**
   * Over every run of sessions, path changes, boots and vanishing files: a call changes a path file, and then exactly
   * as it should, only if a sign-in of its window as an admin stands; and if one does, the path is good and no write
   * fails, the call remembers the resolved path and configures the new one.
   */
  lemma OnlyAdminsChange(cfg: DbPath.Config, m: DbPath.Machine, h: seq<Op>, w: int, newPath: string,
                         fault: DbPath.WriteFault, now: int)
    ensures var before := Run(cfg, m, h).machine;
            var after := Step(cfg, Run(cfg, m, h), ChangeBy(w, newPath, fault, now)).machine;
            (!AdminStands(h, w) ==> after == before) &&
            (AdminStands(h, w) && fault == DbPath.NoFault && Trim(newPath) != "" && Trim(newPath) in before.dbs ==>
               after == DbPath.Machine(Some(Trim(newPath)), Some(DbPath.Resolve(cfg, before)), before.dbs))
  {
    SessionsOf(cfg, m, h);
    SessionHistory.AuthorizeIff(SessionOps(h), w, {DesktopSession.Admin});
    var s := Run(cfg, m, h);
    var auth := DesktopSession.Authorize(s.sessions, w, {DesktopSession.Admin});
    assert auth.Authorized? <==> AdminStands(h, w) by {
      if auth.Authorized? {
        assert auth == DesktopSession.Authorized(auth.role, auth.userId);
      }
    }
    DbPath.ChangeExact(cfg, s.machine, newPath, auth.Authorized?, fault);
  }

  /** Over every run, the path files change only by such a call or by a boot that rolls back. */
  lemma FilesChangeOnlyBy(cfg: DbPath.Config, m: DbPath.Machine, h: seq<Op>, op: Op)
    ensures var before, after := Run(cfg, m, h).machine, Step(cfg, Run(cfg, m, h), op).machine;
            after.pathFile != before.pathFile || after.prevFile != before.prevFile ==>
              (op == Boot && DbPath.RollsBack(cfg, before)) || (op.ChangeBy? && AdminStands(h, op.w))
  {
    if op.ChangeBy? {
      OnlyAdminsChange(cfg, m, h, op.w, op.newPath, op.fault, op.now);
    }
  }
}
