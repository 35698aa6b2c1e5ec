/**
 * Every run of the desktop session operations, told from its history: who is signed in, when a session was last
 * touched, and when the profits gate opens.
 */
module SessionHistory {
  import opened Text
  import opened DesktopSession

  function Run(h: seq<Op>): Store {
    if h == [] then Store([], map[]) else Step(Run(h[..|h| - 1]), h[|h| - 1])
  }

  lemma {:induction false} RunValid(h: seq<Op>)
    ensures Run(h).Valid()
  {
    if h != [] {
      RunValid(h[..|h| - 1]);
      StepValid(Run(h[..|h| - 1]), h[|h| - 1]);
    }
  }

  // ----- what a history says -----

  predicate IsSignIn(op: Op, w: int) {
    op.SignIn? && op.w == w
  }

  /** The time of the latest sign-in or role check of a window. */
  function LastTouch(h: seq<Op>, w: int): Option<int> {
    if h == [] then None
    else
      var op := h[|h| - 1];
      if (op.SignIn? || op.GetSession? || op.RequireRole? || op.Access?) && op.w == w then Some(op.now)
         else LastTouch(h[..|h| - 1], w)
  }

  predicate IdledOut(h: seq<Op>, w: int, now: int) {
    var t := LastTouch(h, w);
    t.Some? && now - t.value > 8 * 60 * 60 * 1000
  }

  /** The operation, after the history `h`, ends a session of `w`. */
  predicate Ends(h: seq<Op>, op: Op, w: int) {
    IsSignIn(op, w) || op == SignOut(w) || (op.Purge? && IdledOut(h, w, op.now))
  }

  /** `w` signed in at step `i`, and nothing has ended that session since. */
  ghost predicate SignedInAt(h: seq<Op>, w: int, i: nat) {
    i < |h| && IsSignIn(h[i], w) && forall k :: i < k < |h| ==> !Ends(h[..k], h[k], w)
  }

  /** An unlock was granted to `w` at step `g`, and neither granted again nor revoked since. */
  ghost predicate UnlockedAt(h: seq<Op>, w: int, g: nat) {
    g < |h| && h[g].Grant? && h[g].w == w &&
    forall k :: g < k < |h| ==> h[k] != Revoke(w) && !(h[k].Grant? && h[k].w == w)
  }

  // ----- one step further -----

  lemma SignedInStep(h: seq<Op>, w: int, i: nat)
    requires h != []
    ensures var p, op := h[..|h| - 1], h[|h| - 1];
            SignedInAt(h, w, i) <==> if i == |p| then IsSignIn(op, w) else SignedInAt(p, w, i) && !Ends(p, op, w)
  {
    var p, op := h[..|h| - 1], h[|h| - 1];
    if i < |p| {
      forall k | i < k < |h| ensures h[..k] == if k == |p| then p else p[..k] {}
      if SignedInAt(h, w, i) {
        assert !Ends(h[..|p|], h[|p|], w);
        forall k | i < k < |p| ensures !Ends(p[..k], p[k], w) {
          assert !Ends(h[..k], h[k], w);
        }
      }
    }
  }

  lemma UnlockedStep(h: seq<Op>, w: int, g: nat)
    requires h != []
    ensures var p, op := h[..|h| - 1], h[|h| - 1];
            UnlockedAt(h, w, g) <==>
            if g == |p| then op.Grant? && op.w == w
            else UnlockedAt(p, w, g) && op != Revoke(w) && !(op.Grant? && op.w == w)
  {
    var p, op := h[..|h| - 1], h[|h| - 1];
    if g < |p| && UnlockedAt(h, w, g) {
      forall k | g < k < |p| ensures p[k] != Revoke(w) && !(p[k].Grant? && p[k].w == w) {
        assert p[k] == h[k];
      }
    }
  }

  /** How one operation changes one window's entry. */
  function LocalStep(d: Option<SessionData>, op: Op, w: int): Option<SessionData> {
    if op.Purge? then (if d.Some? && Idle(d.value, op.now) then None else d)
    else if op.w != w then d
    else
      match op
      case SignIn(_, userId, role, now) => Some(SessionData(userId, role, now, None))
      case SignOut(_) => None
      case _ =>
        if d.None? then None
        else if op.Grant? then Some(d.value.(profitsUnlockedAt := Some(op.now)))
        else if op.Revoke? then Some(d.value.(profitsUnlockedAt := None))
        else if Touches(op) then Some(d.value.(lastActivity := op.now))
        else d
  }

  /** A window's entry depends on the operations on that window and on purges, and on nothing else. */
  lemma StepIsLocal(s: Store, op: Op, w: int)
    ensures Step(s, op).Lookup(w) == LocalStep(s.Lookup(w), op, w)
  {
  }

  // ----- who is signed in -----

  /** The entry the history accounts for: the session opened at step `i`. */
  ghost predicate Accounts(h: seq<Op>, w: int, i: nat, d: SessionData) {
    SignedInAt(h, w, i) &&
    d.userId == h[i].userId && d.role == h[i].role &&
    LastTouch(h, w) == Some(d.lastActivity) &&
    (d.profitsUnlockedAt.Some? ==>
       exists g :: i < g && UnlockedAt(h, w, g) && d.profitsUnlockedAt.value == h[g].now) &&
    (forall g :: i < g && UnlockedAt(h, w, g) ==> d.profitsUnlockedAt == Some(h[g].now))
  }

  /** A window has a session exactly when some sign-in of it still stands; the entry is what the history says. */
  lemma {:induction false} SessionIff(h: seq<Op>, w: int)
    ensures Run(h).Lookup(w).Some? ==> exists i :: Accounts(h, w, i, Run(h).Lookup(w).value)
    ensures forall i :: SignedInAt(h, w, i) ==> Run(h).Lookup(w).Some? && Accounts(h, w, i, Run(h).Lookup(w).value)
  {
    if h != [] {
      var p, op := h[..|h| - 1], h[|h| - 1];
      SessionIff(p, w);
      StepIsLocal(Run(p), op, w);
      var d := Run(h).Lookup(w);
      if d.Some? {
        if IsSignIn(op, w) {
          AccountsNew(h, w);
        } else {
          var i :| Accounts(p, w, i, Run(p).Lookup(w).value);
          AccountsStep(h, w, i, Run(p).Lookup(w).value);
        }
      }
      forall i | SignedInAt(h, w, i) ensures d.Some? && Accounts(h, w, i, d.value) {
        SignedInStep(h, w, i);
        if i == |p| {
          AccountsNew(h, w);
        } else {
          AccountsStep(h, w, i, Run(p).Lookup(w).value);
        }
      }
    }
  }

  lemma AccountsNew(h: seq<Op>, w: int)
    requires h != [] && IsSignIn(h[|h| - 1], w)
    ensures var op := h[|h| - 1]; Accounts(h, w, |h| - 1, SessionData(op.userId, op.role, op.now, None))
  {
    SignedInStep(h, w, |h| - 1);
  }

  lemma AccountsStep(h: seq<Op>, w: int, i: nat, d: SessionData)
    requires h != [] && Accounts(h[..|h| - 1], w, i, d) && !IsSignIn(h[|h| - 1], w)
    ensures var e := LocalStep(Some(d), h[|h| - 1], w);
            if Ends(h[..|h| - 1], h[|h| - 1], w) then e == None else e.Some? && Accounts(h, w, i, e.value)
  {
    var p, op := h[..|h| - 1], h[|h| - 1];
    if !Ends(p, op, w) {
      var e := LocalStep(Some(d), op, w).value;
      SignedInStep(h, w, i);
      forall g | i < g && UnlockedAt(h, w, g) ensures e.profitsUnlockedAt == Some(h[g].now) {
        UnlockedStep(h, w, g);
      }
      if e.profitsUnlockedAt.Some? {
        if op.Grant? && op.w == w {
          UnlockedStep(h, w, |p|);
          assert UnlockedAt(h, w, |p|);
        } else {
          var g :| i < g && UnlockedAt(p, w, g) && d.profitsUnlockedAt.value == p[g].now;
          UnlockedStep(h, w, g);
          assert UnlockedAt(h, w, g);
        }
      }
    }
  }

  /**
   * A reason to open the gate: the window signed in at `i` with an allowed role and is signed in still, and the unlock
   * granted to it at `g`, after that sign-in, has not been replaced or revoked and is live.
   */
  ghost predicate OpensGate(h: seq<Op>, w: int, i: nat, g: nat, now: int) {
    SignedInAt(h, w, i) && (h[i].role == Admin || h[i].role == Staff) &&
    i < g && UnlockedAt(h, w, g) && now - h[g].now < 15 * 60 * 1000
  }

  /** The profits gate over every run: it opens exactly when the history holds a reason to open it. */
  lemma ProfitsGateIff(h: seq<Op>, w: int, now: int)
    ensures ProfitsGate(Run(h), w, now) == Granted <==> exists i, g :: OpensGate(h, w, i, g, now)
  {
    SessionIff(h, w);
    var s := Run(h);
    if ProfitsGate(s, w, now) == Granted {
      var i :| Accounts(h, w, i, s.data[w]);
      var g :| i < g && UnlockedAt(h, w, g) && s.data[w].profitsUnlockedAt.value == h[g].now;
      assert OpensGate(h, w, i, g, now);
    }
    if i, g :| OpensGate(h, w, i, g, now) {
      assert Accounts(h, w, i, s.data[w]);
    }
  }

  /** The sign-in of `w` at step `i` still stands, with this role and user. */
  ghost predicate StandsAs(h: seq<Op>, w: int, i: nat, role: Role, userId: int) {
    SignedInAt(h, w, i) && h[i].role == role && h[i].userId == userId
  }

  lemma EntryStands(h: seq<Op>, w: int)
    ensures var d := Run(h).Lookup(w);
            (d.Some? ==> exists i :: StandsAs(h, w, i, d.value.role, d.value.userId)) &&
            (forall i, role, userId :: StandsAs(h, w, i, role, userId) ==>
                                         d.Some? && d.value.role == role && d.value.userId == userId)
  {
    SessionIff(h, w);
    var d := Run(h).Lookup(w);
    if d.Some? {
      var i :| Accounts(h, w, i, d.value);
      assert StandsAs(h, w, i, d.value.role, d.value.userId);
    }
    forall i, role, userId | StandsAs(h, w, i, role, userId)
      ensures d.Some? && d.value.role == role && d.value.userId == userId
    {
      assert SignedInAt(h, w, i);
      assert Accounts(h, w, i, d.value);
    }
  }

  /** The role check over every run: each of its three answers, told by the sign-in that stands. */
  lemma AuthorizeIff(h: seq<Op>, w: int, allowed: set<Role>)
    ensures Authorize(Run(h), w, allowed) == NotAuthenticated <==>
            !exists i, role, userId :: StandsAs(h, w, i, role, userId)
    ensures Authorize(Run(h), w, allowed) == Forbidden <==>
            exists i, role, userId :: StandsAs(h, w, i, role, userId) && role !in allowed
    ensures forall role, userId ::
              Authorize(Run(h), w, allowed) == Authorized(role, userId) <==>
              role in allowed && exists i :: StandsAs(h, w, i, role, userId)
  {
    EntryStands(h, w);
  }

  /**
   * The gate's refusals over every run: no sign-in stands, or one with another role, or an allowed one without a live
   * unlock.
   */
  lemma GateRefusesIff(h: seq<Op>, w: int, now: int)
    ensures ProfitsGate(Run(h), w, now) == Denied(NotAuthenticated) <==>
            !exists i, role, userId :: StandsAs(h, w, i, role, userId)
    ensures ProfitsGate(Run(h), w, now) == Denied(Forbidden) <==>
            exists i, role, userId :: StandsAs(h, w, i, role, userId) && role != Admin && role != Staff
    ensures ProfitsGate(Run(h), w, now) == Locked <==>
            (exists i, role, userId :: StandsAs(h, w, i, role, userId) && (role == Admin || role == Staff)) &&
            !exists i, g :: OpensGate(h, w, i, g, now)
  {
    EntryStands(h, w);
    ProfitsGateIff(h, w, now);
  }

  // ----- windows do not disturb each other -----

  /** The operations of one window, and the purges. */
  function Own(h: seq<Op>, w: int): seq<Op> {
    if h == [] then []
    else
      var op := h[|h| - 1];
      Own(h[..|h| - 1], w) + (if op.Purge? || op.w == w then [op] else [])
  }

  /** Leaving out every operation of every other window changes nothing a window can see. */
  lemma {:induction false} WindowsIndependent(h: seq<Op>, w: int)
    ensures Run(h).Lookup(w) == Run(Own(h, w)).Lookup(w)
  {
    if h != [] {
      var p, op := h[..|h| - 1], h[|h| - 1];
      WindowsIndependent(p, w);
      StepIsLocal(Run(p), op, w);
      if op.Purge? || op.w == w {
        assert Own(h, w)[..|Own(h, w)| - 1] == Own(p, w);
        StepIsLocal(Run(Own(p, w)), op, w);
      } else {
        assert Own(h, w) == Own(p, w);
      }
    }
  }

  /** The gate's answer for a window is the same whatever the other windows did. */
  lemma GateIndependent(h: seq<Op>, w: int, now: int)
    ensures ProfitsGate(Run(h), w, now) == ProfitsGate(Run(Own(h, w)), w, now)
  {
    WindowsIndependent(h, w);
    GateReadsOwnEntry(Run(h), Run(Own(h, w)), w, now);
  }

  lemma GateReadsOwnEntry(s: Store, t: Store, w: int, now: int)
    requires s.Lookup(w) == t.Lookup(w)
    ensures ProfitsGate(s, w, now) == ProfitsGate(t, w, now)
  {
  }

  // ----- the purge -----

  lemma {:induction false} IdleIdsFacts(ws: seq<int>, data: map<int, SessionData>, now: int)
    ensures forall v :: v in IdleIds(ws, data, now) <==> v in ws && v in data && Idle(data[v], now)
    ensures Distinct(ws) ==> Distinct(IdleIds(ws, data, now))
  {
    if ws != [] {
      IdleIdsFacts(ws[1..], data, now);
      assert ws == [ws[0]] + ws[1..];
      if Distinct(ws) {
        DistinctTail(ws);
        DistinctCons(ws[0], IdleIds(ws[1..], data, now));
      }
    }
  }

  /**
   * A purge, after any run, returns without repetition exactly the windows whose latest sign-in or role check is older
   * than the timeout, removes exactly those, and leaves every other window as it was.
   */
  lemma PurgeExact(h: seq<Op>, now: int)
    ensures var s, t := Run(h), Run(h + [Purge(now)]);
            var purged := IdleIds(s.order, s.data, now);
            Distinct(purged) &&
            (forall w :: w in purged <==> w in s.data && IdledOut(h, w, now)) &&
            (forall w :: t.Lookup(w) == if w in purged then None else s.Lookup(w))
  {
    var s := Run(h);
    RunValid(h);
    IdleIdsFacts(s.order, s.data, now);
    assert (h + [Purge(now)])[..|h|] == h;
    forall w ensures w in s.data ==> LastTouch(h, w) == Some(s.data[w].lastActivity) {
      SessionIff(h, w);
    }
    forall w ensures Run(h + [Purge(now)]).Lookup(w) == LocalStep(s.Lookup(w), Purge(now), w) {
      StepIsLocal(s, Purge(now), w);
    }
  }
}
