/**
 * The database-path rollback protocol: `database:changePath` (electron-app/handlers/dbHandlers.ts) and the boot
 * (electron-app/main.ts) talk through two small files across relaunches, while database files come and go.
 */
module DbPath {
  import opened Text

  /** The environment override, empty when unset, and the path used when nothing is configured. */
  datatype Config = Config(override: string, fallback: string)

  /** `db-path.txt`, `db-path-prev.txt`, and the database files that exist. */
  datatype Machine = Machine(pathFile: Option<string>, prevFile: Option<string>, dbs: set<string>)

  datatype WriteFault = NoFault | PrevWriteFails | PathWriteFails

  datatype Op =
    | Change(newPath: string, admin: bool, fault: WriteFault)
    | Boot
    | Vanish(path: string)
    | Appear(path: string)

  /** `resolveDatabasePath`. */
  function Resolve(cfg: Config, m: Machine): string {
    if cfg.override != "" then cfg.override
    else if m.pathFile.Some? && Trim(m.pathFile.value) != "" then Trim(m.pathFile.value)
    else cfg.fallback
  }

  /** The call passes its checks. */
  predicate Accepted(m: Machine, op: Op) {
    op.Change? && op.admin && Trim(op.newPath) != "" && Trim(op.newPath) in m.dbs
  }

  function AfterChange(cfg: Config, m: Machine, op: Op): Machine
    requires op.Change?
  {
    if !Accepted(m, op) || op.fault == PrevWriteFails then m
    else
      var saved := m.(prevFile := Some(Resolve(cfg, m)));
      if op.fault == PathWriteFails then saved else saved.(pathFile := Some(Trim(op.newPath)))
  }

  /** The configured database is missing and the remembered one is there. */
  predicate RollsBack(cfg: Config, m: Machine) {
    Resolve(cfg, m) !in m.dbs && m.prevFile.Some? && Trim(m.prevFile.value) != "" && Trim(m.prevFile.value) in m.dbs
  }

  /** The database a boot opens. */
  function Opened(cfg: Config, m: Machine): string {
    if RollsBack(cfg, m) then Trim(m.prevFile.value) else Resolve(cfg, m)
  }

  /** Opening creates the file when it is missing. */
  function AfterBoot(cfg: Config, m: Machine): Machine {
    if RollsBack(cfg, m) then Machine(Some(Trim(m.prevFile.value)), None, m.dbs)
    else m.(dbs := m.dbs + {Resolve(cfg, m)})
  }

  function Step(cfg: Config, m: Machine, op: Op): Machine {
    match op
    case Change(_, _, _) => AfterChange(cfg, m, op)
    case Boot => AfterBoot(cfg, m)
    case Vanish(p) => m.(dbs := m.dbs - {p})
    case Appear(p) => m.(dbs := m.dbs + {p})
  }

  class PathSettings {
    const cfg: Config
    var pathFile: Option<string>
    var prevFile: Option<string>
    var dbs: set<string>

    ghost function View(): Machine
      reads this
    {
      Machine(pathFile, prevFile, dbs)
    }

    constructor (cfg: Config, m: Machine)
      ensures this.cfg == cfg && View() == m
    {
      this.cfg := cfg;
      pathFile, prevFile, dbs := m.pathFile, m.prevFile, m.dbs;
    }

    method ResolveDatabasePath() returns (path: string)
      ensures path == Resolve(cfg, View())
    {
      if cfg.override != "" {
        return cfg.override;
      }
      if pathFile.Some? {
        var p := Trim(pathFile.value);
        if p != "" {
          return p;
        }
      }
      return cfg.fallback;
    }

    method ChangePath(newPath: string, admin: bool, fault: WriteFault) returns (success: bool)
      modifies this
      ensures View() == AfterChange(cfg, old(View()), Change(newPath, admin, fault))
      ensures success <==> admin && Trim(newPath) != "" && Trim(newPath) in old(dbs) && fault == NoFault
      ensures success ==> pathFile == Some(Trim(newPath)) && prevFile == Some(Resolve(cfg, old(View())))
    {
      if !admin {
        return false;
      }
      var trimmedPath := Trim(newPath);
      if trimmedPath == "" || trimmedPath !in dbs {
        return false;
      }
      var resolved := ResolveDatabasePath();
      if fault == PrevWriteFails {
        return false;
      }
      prevFile := Some(resolved);
      if fault == PathWriteFails {
        return false;
      }
      pathFile := Some(trimmedPath);
      return true;
    }

    method InitializeDatabase() returns (dbPath: string)
      modifies this
      ensures View() == AfterBoot(cfg, old(View()))
      ensures dbPath == Opened(cfg, old(View())) && dbPath in dbs
    {
      dbPath := ResolveDatabasePath();
      if dbPath !in dbs && prevFile.Some? {
        var prevPath := Trim(prevFile.value);
        if prevPath != "" && prevPath in dbs {
          pathFile := Some(prevPath);
          prevFile := None;
          dbPath := prevPath;
        }
      }
      dbs := dbs + {dbPath};
    }
  }

  // ----- one change -----

  /**
   * A change by someone who is no admin, or to an empty or a missing path, or whose first write fails, leaves
   * everything as it was. Any other remembers the path resolved before, and, unless its second write fails, configures
   * the trimmed new one. No database file is touched.
   */
  lemma ChangeExact(cfg: Config, m: Machine, newPath: string, admin: bool, fault: WriteFault)
    ensures var after := AfterChange(cfg, m, Change(newPath, admin, fault));
            (!admin || Trim(newPath) == "" || Trim(newPath) !in m.dbs || fault == PrevWriteFails ==> after == m) &&
            (admin && Trim(newPath) != "" && Trim(newPath) in m.dbs && fault != PrevWriteFails ==>
               after.prevFile == Some(Resolve(cfg, m)) && after.dbs == m.dbs &&
               after.pathFile == if fault == PathWriteFails then m.pathFile else Some(Trim(newPath)))
  {
  }

  /** What is configured: the override if there is one, else the path file unless it is blank, else the default. */
  lemma ResolveExact(cfg: Config, m: Machine, path: string)
    requires Trim(path) == path != ""
    ensures cfg.override != "" ==> Resolve(cfg, m) == cfg.override
    ensures cfg.override == "" ==>
              Resolve(cfg, m.(pathFile := Some(path))) == path && Resolve(cfg, m.(pathFile := None)) == cfg.fallback
    ensures forall blank :: cfg.override == "" && Trim(blank) == "" ==>
                              Resolve(cfg, m.(pathFile := Some(blank))) == cfg.fallback
  {
  }

  // ----- one boot -----

  /** A boot opens a database that was already there exactly when the configured or the remembered one was. */
  lemma BootOpensExistingIff(cfg: Config, m: Machine)
    ensures Opened(cfg, m) in m.dbs <==>
            Resolve(cfg, m) in m.dbs ||
            (m.prevFile.Some? && Trim(m.prevFile.value) != "" && Trim(m.prevFile.value) in m.dbs)
  {
  }

  /** With nothing in between, the next boot opens the same database, unless an override was rolled back from. */
  lemma BootTwiceIff(cfg: Config, m: Machine)
    ensures Opened(cfg, AfterBoot(cfg, m)) == Opened(cfg, m) <==> !(cfg.override != "" && RollsBack(cfg, m))
  {
    if m.prevFile.Some? {
      StripTrims(m.prevFile.value, JsSpace);
      StripTrims(Trim(m.prevFile.value), JsSpace);
    }
  }

  // ----- runs -----

  function Run(cfg: Config, m: Machine, h: seq<Op>): Machine {
    if h == [] then m else Step(cfg, Run(cfg, m, h[..|h| - 1]), h[|h| - 1])
  }

  /** Nothing in the run changes the path: every attempt is refused or fails before its first write. */
  predicate NoPathChange(cfg: Config, m: Machine, h: seq<Op>) {
    forall k :: 0 <= k < |h| && Accepted(Run(cfg, m, h[..k]), h[k]) ==> h[k].fault == PrevWriteFails
  }

  /** At every boot of the run, `there` exists and `gone` does not. */
  predicate AtBoots(cfg: Config, m: Machine, h: seq<Op>, there: string, gone: string) {
    forall k :: 0 <= k < |h| && h[k] == Boot ==>
                var s := Run(cfg, m, h[..k]); there in s.dbs && gone !in s.dbs
  }

  lemma PrefixOk(cfg: Config, m: Machine, h: seq<Op>, n: nat, there: string, gone: string)
    requires n <= |h| && NoPathChange(cfg, m, h) && AtBoots(cfg, m, h, there, gone)
    ensures NoPathChange(cfg, m, h[..n]) && AtBoots(cfg, m, h[..n], there, gone)
  {
    forall k | 0 <= k < n ensures h[..n][..k] == h[..k] && h[..n][k] == h[k] {}
  }

  /** The two files after a change from `a` to `b`: not yet rolled back, or rolled back for good. */
  predicate Remembers(m: Machine, a: string, b: string) {
    (m.pathFile == Some(b) && m.prevFile == Some(a)) || (m.pathFile == Some(a) && m.prevFile == None)
  }

  lemma {:induction false} RollbackInvariant(cfg: Config, m: Machine, h: seq<Op>, a: string, b: string)
    requires cfg.override == "" && a != "" && b != "" && Trim(a) == a && Trim(b) == b
    requires Remembers(m, a, b)
    requires NoPathChange(cfg, m, h) && AtBoots(cfg, m, h, a, b)
    ensures Remembers(Run(cfg, m, h), a, b)
  {
    if h != [] {
      var n := |h| - 1;
      PrefixOk(cfg, m, h, n, a, b);
      RollbackInvariant(cfg, m, h[..n], a, b);
      assert h[n].Change? ==> !Accepted(Run(cfg, m, h[..n]), h[n]) || h[n].fault == PrevWriteFails;
    }
  }

  /**
   * After a change from A to B, over every later run without another path change in which B is missing and A present at
   * each boot: every boot opens A, the first and all later ones, and there is no bouncing back.
   */
  lemma RollbackSticks(cfg: Config, m: Machine, change: Op, h: seq<Op>, k: nat)
    requires cfg.override == "" && cfg.fallback != "" && Trim(cfg.fallback) == cfg.fallback
    requires Accepted(m, change) && change.fault == NoFault
    requires var a, b := Resolve(cfg, m), Trim(change.newPath);
             var after := AfterChange(cfg, m, change);
             NoPathChange(cfg, after, h) && AtBoots(cfg, after, h, a, b)
    requires k < |h| && h[k] == Boot
    ensures Opened(cfg, Run(cfg, AfterChange(cfg, m, change), h[..k])) == Resolve(cfg, m)
  {
    var a, b, after := Resolve(cfg, m), Trim(change.newPath), AfterChange(cfg, m, change);
    StripTrims(change.newPath, JsSpace);
    StripTrims(b, JsSpace);
    if m.pathFile.Some? {
      StripTrims(m.pathFile.value, JsSpace);
      StripTrims(Trim(m.pathFile.value), JsSpace);
    }
    PrefixOk(cfg, after, h, k, a, b);
    RollbackInvariant(cfg, after, h[..k], a, b);
  }

  // ----- when there is a way back -----

  /** Some presence and absence of database files would make a boot roll back. */
  ghost predicate CanRollBack(cfg: Config, m: Machine) {
    exists dbs :: RollsBack(cfg, m.(dbs := dbs))
  }

  /** There is a way back exactly when a path is remembered that is not the configured one. */
  lemma CanRollBackIff(cfg: Config, m: Machine)
    ensures CanRollBack(cfg, m) <==>
            m.prevFile.Some? && Trim(m.prevFile.value) != "" && Trim(m.prevFile.value) != Resolve(cfg, m)
  {
    if m.prevFile.Some? && Trim(m.prevFile.value) != "" && Trim(m.prevFile.value) != Resolve(cfg, m) {
      assert RollsBack(cfg, m.(dbs := {Trim(m.prevFile.value)}));
    }
  }

  /** A change takes effect exactly when no override, or only the same path, stands before it. */
  lemma ChangeResolvesIff(cfg: Config, m: Machine, op: Op)
    requires Accepted(m, op) && op.fault == NoFault
    ensures Resolve(cfg, AfterChange(cfg, m, op)) == Trim(op.newPath) <==>
            cfg.override == "" || cfg.override == Trim(op.newPath)
  {
    StripTrims(op.newPath, JsSpace);
    StripTrims(Trim(op.newPath), JsSpace);
  }

  /**
   * What an accepted change leaves of the way back, write by write: done, there is one unless the path stays the same;
   * failed between its two writes, there is none, because the remembered path has become the configured one (a path
   * with white space around it aside, which is read back without); failed before, it is as it was.
   */
  lemma WayBackIff(cfg: Config, m: Machine, op: Op)
    requires Accepted(m, op)
    ensures var r := Resolve(cfg, m);
            CanRollBack(cfg, AfterChange(cfg, m, op)) <==>
            match op.fault
            case NoFault => Trim(r) != "" && Trim(r) != if cfg.override != "" then cfg.override else Trim(op.newPath)
            case PathWriteFails => Trim(r) != "" && Trim(r) != r
            case PrevWriteFails => CanRollBack(cfg, m)
  {
    CanRollBackIff(cfg, AfterChange(cfg, m, op));
    StripTrims(op.newPath, JsSpace);
    StripTrims(Trim(op.newPath), JsSpace);
  }

  /** Without an override, on a default path that is trimmed and not empty, as the joined default paths are. */
  lemma UsualWayBackIff(cfg: Config, m: Machine, op: Op)
    requires Accepted(m, op) && cfg.override == "" && cfg.fallback != "" && Trim(cfg.fallback) == cfg.fallback
    ensures CanRollBack(cfg, AfterChange(cfg, m, op)) <==>
            (op.fault == NoFault && Resolve(cfg, m) != Trim(op.newPath)) ||
            (op.fault == PrevWriteFails && CanRollBack(cfg, m))
  {
    WayBackIff(cfg, m, op);
    if m.pathFile.Some? {
      StripTrims(m.pathFile.value, JsSpace);
      StripTrims(Trim(m.pathFile.value), JsSpace);
    }
  }

  lemma {:induction false} FilesStay(cfg: Config, m: Machine, h: seq<Op>)
    requires !CanRollBack(cfg, m) && NoPathChange(cfg, m, h)
    ensures var n := Run(cfg, m, h); n.pathFile == m.pathFile && n.prevFile == m.prevFile
  {
    if h != [] {
      var n := |h| - 1;
      assert NoPathChange(cfg, m, h[..n]) by {
        forall k | 0 <= k < n ensures h[..n][..k] == h[..k] && h[..n][k] == h[k] {}
      }
      FilesStay(cfg, m, h[..n]);
      var p := Run(cfg, m, h[..n]);
      assert p == m.(dbs := p.dbs);
      assert !RollsBack(cfg, m.(dbs := p.dbs));
      assert h[n].Change? ==> !Accepted(p, h[n]) || h[n].fault == PrevWriteFails;
    }
  }

  /**
   * Without a way back, over every later run with no other path change, whatever comes and goes, no boot rolls back:
   * each opens the configured path. With one, some run rolls back.
   */
  lemma NeverRollsBackIff(cfg: Config, m: Machine)
    ensures (forall h :: NoPathChange(cfg, m, h) ==> Opened(cfg, Run(cfg, m, h)) == Resolve(cfg, m)) <==>
            !CanRollBack(cfg, m)
  {
    if !CanRollBack(cfg, m) {
      forall h | NoPathChange(cfg, m, h) ensures Opened(cfg, Run(cfg, m, h)) == Resolve(cfg, m) {
        FilesStay(cfg, m, h);
        var n := Run(cfg, m, h);
        assert n == m.(dbs := n.dbs);
        assert !RollsBack(cfg, m.(dbs := n.dbs));
      }
    } else {
      CanRollBackIff(cfg, m);
      var h := [Vanish(Resolve(cfg, m)), Appear(Trim(m.prevFile.value))];
      assert h[..1] == [h[0]] && h[..1][..0] == [];
      assert Run(cfg, m, h[..1]) == m.(dbs := m.dbs - {Resolve(cfg, m)});
      assert NoPathChange(cfg, m, h);
      assert RollsBack(cfg, Run(cfg, m, h));
    }
  }

  /** A change that fails between its two writes: every later boot opens the path it was to leave, there or not. */
  lemma HalfChangeForgets(cfg: Config, m: Machine, op: Op, h: seq<Op>)
    requires Accepted(m, op) && op.fault == PathWriteFails && Trim(Resolve(cfg, m)) == Resolve(cfg, m)
    requires NoPathChange(cfg, AfterChange(cfg, m, op), h)
    ensures Opened(cfg, Run(cfg, AfterChange(cfg, m, op), h)) == Resolve(cfg, m)
  {
    WayBackIff(cfg, m, op);
    NeverRollsBackIff(cfg, AfterChange(cfg, m, op));
  }
}
