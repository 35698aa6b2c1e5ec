/**
 * electron-app/session.ts: the in-memory sessions of the desktop windows, the profits unlock and the idle purge.
 * Every clock reading is an argument.
 */
module DesktopSession {
  import opened Text

  /** The declared roles, and whatever else a user row may hold when it is cast to one. */
  datatype Role = Admin | Staff | Unlisted(name: string)

  datatype SessionData = SessionData(userId: int, role: Role, lastActivity: int, profitsUnlockedAt: Option<int>)

  const SESSION_TIMEOUT_MS := 8 * 60 * 60 * 1000
  const PROFITS_UNLOCK_TTL_MS := 15 * 60 * 1000

  /** A JavaScript map from window ids: the keys in insertion order, and their entries. */
  datatype Store = Store(order: seq<int>, data: map<int, SessionData>) {
    ghost predicate Valid() {
      Distinct(order) &&
      (forall w :: w in order <==> w in data)
    }

    function Set(w: int, d: SessionData): Store {
      Store(if w in data then order else order + [w], data[w := d])
    }

    function Delete(w: int): Store {
      Store(Without(order, w), data - {w})
    }

    function Lookup(w: int): Option<SessionData> {
      if w in data then Some(data[w]) else None
    }
  }

  function Without(ws: seq<int>, w: int): seq<int> {
    if ws == [] then [] else if ws[0] == w then Without(ws[1..], w) else [ws[0]] + Without(ws[1..], w)
  }

  predicate Idle(d: SessionData, now: int) {
    now - d.lastActivity > SESSION_TIMEOUT_MS
  }

  predicate UnlockLive(unlockedAt: Option<int>, now: int) {
    unlockedAt.Some? && now - unlockedAt.value < PROFITS_UNLOCK_TTL_MS
  }

  /** The window ids of a list whose session is idle, in the same order. */
  function IdleIds(ws: seq<int>, data: map<int, SessionData>, now: int): seq<int> {
    if ws == [] then []
    else (if ws[0] in data && Idle(data[ws[0]], now) then [ws[0]] else []) + IdleIds(ws[1..], data, now)
  }

  function LiveIds(ws: seq<int>, data: map<int, SessionData>, now: int): seq<int> {
    if ws == [] then []
    else (if ws[0] in data && Idle(data[ws[0]], now) then [] else [ws[0]]) + LiveIds(ws[1..], data, now)
  }

  function Awake(data: map<int, SessionData>, now: int): (r: map<int, SessionData>)
    ensures forall w :: w in r <==> w in data && !Idle(data[w], now)
    ensures forall w :: w in r ==> r[w] == data[w]
  {
    map w | w in data && !Idle(data[w], now) :: data[w]
  }

  /** One call of an exported function, with its clock readings. */
  datatype Op =
    | SignIn(w: int, userId: int, role: Role, now: int)
    | SignOut(w: int)
    | GetSession(w: int, now: int)
    | RequireRole(w: int, allowed: set<Role>, now: int)
    | Grant(w: int, now: int)
    | Revoke(w: int)
    | HasUnlock(w: int, now: int)
    | Access(w: int, now: int, then_: int)
    | Purge(now: int)

  predicate Touches(op: Op) {
    op.GetSession? || op.RequireRole? || op.Access?
  }

  function Step(s: Store, op: Op): Store {
    match op
    case SignIn(w, userId, role, now) => s.Set(w, SessionData(userId, role, now, None))
    case SignOut(w) => s.Delete(w)
    case Grant(w, now) => if w in s.data then s.Set(w, s.data[w].(profitsUnlockedAt := Some(now))) else s
    case Revoke(w) => if w in s.data then s.Set(w, s.data[w].(profitsUnlockedAt := None)) else s
    case HasUnlock(_, _) => s
    case Purge(now) =>
      Store(LiveIds(s.order, s.data, now), Awake(s.data, now))
    case _ => if op.w in s.data then s.Set(op.w, s.data[op.w].(lastActivity := op.now)) else s
  }

  datatype Auth = Authorized(role: Role, userId: int) | NotAuthenticated | Forbidden
  datatype Gate = Granted | Denied(auth: Auth) | Locked

  function Authorize(s: Store, w: int, allowed: set<Role>): Auth {
    if w !in s.data then NotAuthenticated
    else if s.data[w].role !in allowed then Forbidden
    else Authorized(s.data[w].role, s.data[w].userId)
  }

  /** The answer of `requireProfitsAccess`, when the unlock is looked at at time `then_`. */
  function ProfitsGate(s: Store, w: int, then_: int): Gate {
    var auth := Authorize(s, w, {Admin, Staff});
    if !auth.Authorized? then Denied(auth)
    else if UnlockLive(s.data[w].profitsUnlockedAt, then_) then Granted
    else Locked
  }

  lemma {:induction false} WithoutFacts(ws: seq<int>, w: int)
    ensures forall v :: v in Without(ws, w) <==> v in ws && v != w
    ensures Distinct(ws) ==> Distinct(Without(ws, w))
  {
    if ws != [] {
      WithoutFacts(ws[1..], w);
      assert ws == [ws[0]] + ws[1..];
      if Distinct(ws) {
        DistinctTail(ws);
        DistinctCons(ws[0], Without(ws[1..], w));
      }
    }
  }

  lemma {:induction false} LiveIdsFacts(ws: seq<int>, data: map<int, SessionData>, now: int)
    ensures forall v :: v in LiveIds(ws, data, now) <==> v in ws && !(v in data && Idle(data[v], now))
    ensures Distinct(ws) ==> Distinct(LiveIds(ws, data, now))
  {
    if ws != [] {
      LiveIdsFacts(ws[1..], data, now);
      assert ws == [ws[0]] + ws[1..];
      if Distinct(ws) {
        DistinctTail(ws);
        DistinctCons(ws[0], LiveIds(ws[1..], data, now));
      }
    }
  }

  lemma StepValid(s: Store, op: Op)
    requires s.Valid()
    ensures Step(s, op).Valid()
  {
    match op
    case SignOut(w) => WithoutFacts(s.order, w);
    case Purge(now) => LiveIdsFacts(s.order, s.data, now);
    case _ =>
  }

  class SessionMap {
    var order: seq<int>
    var data: map<int, SessionData>

    ghost function View(): Store
      reads this
    {
      Store(order, data)
    }

    ghost predicate Valid()
      reads this
    {
      View().Valid()
    }

    constructor ()
      ensures Valid() && View() == Store([], map[])
    {
      order, data := [], map[];
    }

    method Put(w: int, d: SessionData)
      requires Valid()
      modifies this
      ensures Valid() && View() == old(View()).Set(w, d)
    {
      if w !in data {
        order := order + [w];
      }
      data := data[w := d];
    }

    method SetSession(w: int, userId: int, role: Role, now: int)
      requires Valid()
      modifies this
      ensures Valid() && View() == Step(old(View()), SignIn(w, userId, role, now))
    {
      Put(w, SessionData(userId, role, now, None));
    }

    method ClearSession(w: int)
      requires Valid()
      modifies this
      ensures Valid() && View() == Step(old(View()), SignOut(w))
    {
      WithoutFacts(order, w);
      order := Without(order, w);
      data := data - {w};
    }

    method GetSession(w: int, now: int) returns (s: Option<SessionData>)
      requires Valid()
      modifies this
      ensures Valid() && View() == Step(old(View()), Op.GetSession(w, now))
      ensures s == View().Lookup(w)
    {
      if w !in data {
        return None;
      }
      Put(w, data[w].(lastActivity := now));
      s := Some(data[w]);
    }

    method RequireRole(w: int, allowed: set<Role>, now: int) returns (auth: Auth)
      requires Valid()
      modifies this
      ensures Valid() && View() == Step(old(View()), Op.RequireRole(w, allowed, now))
      ensures auth == Authorize(old(View()), w, allowed)
    {
      var session := GetSession(w, now);
      if session.None? {
        return NotAuthenticated;
      }
      if session.value.role !in allowed {
        return Forbidden;
      }
      auth := Authorized(session.value.role, session.value.userId);
    }

    method GrantProfitsUnlock(w: int, now: int)
      requires Valid()
      modifies this
      ensures Valid() && View() == Step(old(View()), Grant(w, now))
    {
      if w in data {
        Put(w, data[w].(profitsUnlockedAt := Some(now)));
      }
    }

    method RevokeProfitsUnlock(w: int)
      requires Valid()
      modifies this
      ensures Valid() && View() == Step(old(View()), Revoke(w))
    {
      if w in data {
        Put(w, data[w].(profitsUnlockedAt := None));
      }
    }

    method HasProfitsUnlock(w: int, now: int) returns (live: bool)
      requires Valid()
      ensures live <==> w in data && UnlockLive(data[w].profitsUnlockedAt, now)
    {
      if w !in data {
        return false;
      }
      live := UnlockLive(data[w].profitsUnlockedAt, now);
    }

    method RequireProfitsAccess(w: int, now: int, then_: int) returns (gate: Gate)
      requires Valid()
      modifies this
      ensures Valid() && View() == Step(old(View()), Access(w, now, then_))
      ensures gate == ProfitsGate(old(View()), w, then_)
    {
      var auth := RequireRole(w, {Admin, Staff}, now);
      if !auth.Authorized? {
        return Denied(auth);
      }
      var live := HasProfitsUnlock(w, then_);
      gate := if live then Granted else Locked;
    }

    /** Deletes while walking: the cursor stays on the live order, where a deletion moves the next entry up to it. */
    method PurgeExpiredSessions(now: int) returns (purged: seq<int>)
      requires Valid()
      modifies this
      ensures Valid() && View() == Step(old(View()), Purge(now))
      ensures purged == IdleIds(old(order), old(data), now)
    {
      purged := [];
      ghost var was, done := View(), 0;
      var i := 0;
      PurgingStart(was, now);
      while i < |order|
        invariant Purging(was, now, done, i, View(), purged)
        decreases |order| - i
      {
        var id := order[i];
        PurgingNext(was, now, done, i, View(), purged);
        done := done + 1;
        if now - data[id].lastActivity > SESSION_TIMEOUT_MS {
          order := Without(order, id);
          data := data - {id};
          purged := purged + [id];
        } else {
          i := i + 1;
        }
      }
      PurgingEnd(was, now, done, i, View(), purged);
    }
  }

  /**
   * The cursor has passed `done` of the entries that were there: the idle ones among them are gone, the others behind
   * it.
   */
  ghost predicate Purging(was: Store, now: int, done: nat, i: nat, s: Store, purged: seq<int>) {
    was.Valid() && done <= |was.order| &&
    i == |LiveIds(was.order[..done], was.data, now)| &&
    s.order == LiveIds(was.order[..done], was.data, now) + was.order[done..] &&
    purged + IdleIds(was.order[done..], was.data, now) == IdleIds(was.order, was.data, now) &&
    PurgedUpTo(was.order[..done], was.data, s.data, now)
  }

  lemma PurgingStart(was: Store, now: int)
    requires was.Valid()
    ensures Purging(was, now, 0, 0, was, [])
  {
    assert was.order[0..] == was.order;
  }

  lemma PurgingNext(was: Store, now: int, done: nat, i: nat, s: Store, purged: seq<int>)
    requires Purging(was, now, done, i, s, purged) && i < |s.order|
    ensures var id := s.order[i];
            id in s.data &&
            if Idle(s.data[id], now) then Purging(was, now, done + 1, i, s.Delete(id), purged + [id])
            else Purging(was, now, done + 1, i + 1, s, purged)
  {
    AtCursor(LiveIds(was.order[..done], was.data, now), was.order, done, s.order);
    IdleStep(purged, was.order, done, was.data, now);
    PurgeStep(was.order, done, was.data, now);
    PurgedStep(was.order, done, was.data, s.data, now);
  }

  lemma PurgingEnd(was: Store, now: int, done: nat, i: nat, s: Store, purged: seq<int>)
    requires Purging(was, now, done, i, s, purged) && i >= |s.order|
    ensures s == Step(was, Purge(now)) && s.Valid() && purged == IdleIds(was.order, was.data, now)
  {
    assert done == |was.order| && was.order[..done] == was.order && was.order[done..] == [];
    PurgeDone(was, s, now);
  }

  /** The cursor is on the first entry not yet looked at. */
  lemma AtCursor(kept: seq<int>, walk: seq<int>, done: nat, order: seq<int>)
    requires done <= |walk| && order == kept + walk[done..] && |kept| < |order|
    ensures done < |walk| && order[|kept|] == walk[done]
  {
  }

  lemma PurgeDone(s: Store, t: Store, now: int)
    requires s.Valid()
    requires t.order == LiveIds(s.order, s.data, now) && PurgedUpTo(s.order, s.data, t.data, now)
    ensures t == Step(s, Purge(now)) && t.Valid()
  {
    PurgedAll(s.order, s.data, t.data, now);
    StepValid(s, Purge(now));
  }

  lemma IdleStep(purged: seq<int>, walk: seq<int>, i: nat, was: map<int, SessionData>, now: int)
    requires i < |walk| && walk[i] in was
    ensures purged + IdleIds(walk[i..], was, now) ==
            (if Idle(was[walk[i]], now) then purged + [walk[i]] else purged) + IdleIds(walk[i + 1..], was, now)
  {
    assert walk[i..][1..] == walk[i + 1..];
  }

  lemma PurgeStep(walk: seq<int>, i: nat, was: map<int, SessionData>, now: int)
    requires i < |walk| && Distinct(walk) && walk[i] in was
    ensures var before := LiveIds(walk[..i], was, now) + walk[i..];
            LiveIds(walk[..i + 1], was, now) + walk[i + 1..] ==
            (if Idle(was[walk[i]], now) then Without(before, walk[i]) else before) &&
            |LiveIds(walk[..i + 1], was, now)| ==
            |LiveIds(walk[..i], was, now)| + if Idle(was[walk[i]], now) then 0 else 1
  {
    var id, kept, rest := walk[i], LiveIds(walk[..i], was, now), walk[i + 1..];
    assert walk[i..] == [id] + rest && walk[..i + 1] == walk[..i] + [id];
    LiveIdsSnoc(walk[..i], id, was, now);
    LiveIdsFacts(walk[..i], was, now);
    WithoutOnce(kept, id, rest);
    assert kept + ([id] + rest) == kept + [id] + rest;
  }

  /** `data` is `was` without the idle windows of `ws`. */
  ghost predicate PurgedUpTo(ws: seq<int>, was: map<int, SessionData>, data: map<int, SessionData>, now: int) {
    (forall w :: w in was ==> (w in data <==> !(w in ws && Idle(was[w], now)))) &&
    (forall w :: w in data ==> w in was && data[w] == was[w])
  }

  lemma PurgedStep(walk: seq<int>, i: nat, was: map<int, SessionData>, data: map<int, SessionData>, now: int)
    requires i < |walk| && Distinct(walk) && walk[i] in was
    requires PurgedUpTo(walk[..i], was, data, now)
    ensures walk[i] in data && data[walk[i]] == was[walk[i]]
    ensures PurgedUpTo(walk[..i + 1], was, if Idle(was[walk[i]], now) then data - {walk[i]} else data, now)
  {
    assert walk[..i + 1] == walk[..i] + [walk[i]];
    var id := walk[i];
    assert id !in walk[..i];
    assert id in was && id in data;
  }

  lemma PurgedAll(walk: seq<int>, was: map<int, SessionData>, data: map<int, SessionData>, now: int)
    requires forall w :: w in walk <==> w in was
    requires PurgedUpTo(walk, was, data, now)
    ensures data == Awake(was, now)
  {
    var r := Awake(was, now);
    forall w ensures w in data <==> w in r {
      assert w in walk <==> w in was;
    }
    assert forall w :: w in data ==> data[w] == r[w];
  }

  lemma {:induction false} LiveIdsSnoc(ws: seq<int>, w: int, data: map<int, SessionData>, now: int)
    ensures LiveIds(ws + [w], data, now) ==
            LiveIds(ws, data, now) + (if w in data && Idle(data[w], now) then [] else [w])
  {
    if ws != [] {
      LiveIdsSnoc(ws[1..], w, data, now);
      assert (ws + [w])[1..] == ws[1..] + [w];
    }
  }

  lemma {:induction false} WithoutOnce(a: seq<int>, w: int, b: seq<int>)
    requires w !in a && w !in b
    ensures Without(a + [w] + b, w) == a + b
  {
    if a == [] {
      assert a + [w] + b == [w] + b && a + b == b;
      WithoutNone(b, w);
    } else {
      WithoutOnce(a[1..], w, b);
      assert (a + [w] + b)[1..] == a[1..] + [w] + b;
      assert a + b == [a[0]] + (a[1..] + b);
    }
  }

  lemma {:induction false} WithoutNone(b: seq<int>, w: int)
    requires w !in b
    ensures Without(b, w) == b
  {
    if b != [] {
      WithoutNone(b[1..], w);
    }
  }
}
