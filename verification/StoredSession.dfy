/**
 * electron-app/session.ts: the remember-me session on disk and its three-valued cache. What a call to the file system
 * or the keychain does is an argument of the call.
 */
module StoredSession {
  import opened Text

  /** An empty token is a session of the old format, which has none. */
  datatype Stored = Stored(userId: int, token: string, createdAt: int)

  /** What the session file holds; `Garbage` neither decrypts nor parses. */
  datatype File = Absent | Encrypted(session: Stored) | Plaintext(session: Stored) | Garbage

  /** `undefined`, `null` or a session. */
  datatype Cache = Unread | Null | Value(session: Stored)

  /** Whether the keychain is available, and whether the build is packaged. */
  datatype Env = Env(encryption: bool, packaged: bool)

  datatype Disk = Disk(file: File, cache: Cache)

  /**
   * A failed write leaves the old file, or, once the file has been truncated, no readable one, or, when it fails after
   * the last byte, the new one.
   */
  datatype WriteFault = Wrote | FailedIntact | FailedTorn | FailedLate

  const LONG_MS := 7 * 24 * 60 * 60 * 1000

  predicate Expired(s: Stored, now: int) {
    now - s.createdAt > LONG_MS
  }

  /** The session a file stands for under the reading policy. */
  function Decode(env: Env, file: File): Option<Stored> {
    match file
    case Encrypted(s) => if env.encryption then Some(s) else None
    case Plaintext(s) => if !env.encryption && !env.packaged then Some(s) else None
    case _ => None
  }

  predicate MayWrite(env: Env) {
    env.encryption || !env.packaged
  }

  function Written(env: Env, s: Stored): File {
    if env.encryption then Encrypted(s) else Plaintext(s)
  }

  /** What a write that fails once it has begun leaves behind. */
  function Left(env: Env, s: Stored, fault: WriteFault): File {
    if fault == FailedLate then Written(env, s) else Garbage
  }

  function AfterWrite(env: Env, d: Disk, s: Stored, fault: WriteFault): Disk {
    if !MayWrite(env) || fault == FailedIntact then d
    else if fault == Wrote then Disk(Written(env, s), Value(s))
    else d.(file := Left(env, s, fault))
  }

  function AfterClear(d: Disk, unlinkFails: bool): Disk {
    if d.file != Absent && unlinkFails then d else Disk(Absent, Null)
  }

  /** The file is refused by policy, not for what it holds. */
  predicate Refused(env: Env) {
    !env.encryption && env.packaged
  }

  function ReadResult(env: Env, d: Disk, now: int, readFails: bool): Option<Stored> {
    match d.cache
    case Value(s) => Some(s)
    case Null => None
    case Unread =>
      var s := Decode(env, d.file);
      if !readFails && s.Some? && !Expired(s.value, now) then s else None
  }

  function AfterRead(env: Env, d: Disk, now: int, readFails: bool, unlinkFails: bool): Disk {
    if d.cache != Unread then d
    else if d.file == Absent || (!readFails && Refused(env)) then d.(cache := Null)
    else
      var s := ReadResult(env, d, now, readFails);
      if s.Some? then d.(cache := Value(s.value)) else AfterClear(d, unlinkFails)
  }

  class SessionFile {
    const env: Env
    var file: File
    var cache: Cache

    ghost function View(): Disk
      reads this
    {
      Disk(file, cache)
    }

    constructor (env: Env, file: File)
      ensures this.env == env && View() == Disk(file, Unread)
    {
      this.env, this.file, cache := env, file, Unread;
    }

    /** `writeSessionFile`; `ok` is false where the source throws. */
    method WriteSessionFile(s: Stored, fault: WriteFault) returns (ok: bool)
      modifies this
      ensures View() == AfterWrite(env, old(View()), s, fault)
      ensures ok <==> MayWrite(env) && fault == Wrote
      ensures ok ==> Decode(env, file) == Some(s) && cache == Value(s)
    {
      var data: File;
      if env.encryption {
        data := Encrypted(s);
      } else if !env.packaged {
        data := Plaintext(s);
      } else {
        return false;
      }
      match fault
      case FailedIntact => return false;
      case FailedTorn =>
        file := Garbage;
        return false;
      case FailedLate =>
        file := data;
        return false;
      case Wrote =>
        file := data;
        cache := Value(s);
        return true;
    }

    method ClearEncryptedSession(unlinkFails: bool)
      modifies this
      ensures View() == AfterClear(old(View()), unlinkFails)
    {
      if file != Absent {
        if unlinkFails {
          return;
        }
        file := Absent;
      }
      cache := Null;
    }

    method GetEncryptedSession(now: int, readFails: bool, unlinkFails: bool) returns (r: Option<Stored>)
      modifies this
      ensures View() == AfterRead(env, old(View()), now, readFails, unlinkFails)
      ensures r == ReadResult(env, old(View()), now, readFails)
    {
      match cache {
        case Value(s) => return Some(s);
        case Null => return None;
        case Unread =>
      }
      if file == Absent {
        cache := Null;
        return None;
      }
      if readFails {
        ClearEncryptedSession(unlinkFails);
        return None;
      }
      var session: Stored;
      if env.encryption {
        if !file.Encrypted? {
          ClearEncryptedSession(unlinkFails);
          return None;
        }
        session := file.session;
      } else if !env.packaged {
        if !file.Plaintext? {
          ClearEncryptedSession(unlinkFails);
          return None;
        }
        session := file.session;
      } else {
        cache := Null;
        return None;
      }
      if now - session.createdAt > LONG_MS {
        ClearEncryptedSession(unlinkFails);
        return None;
      }
      cache := Value(session);
      return Some(session);
    }

    method ValidateSessionToken(token: string, now: int, readFails: bool, unlinkFails: bool) returns (r: Option<Stored>)
      modifies this
      ensures View() == AfterRead(env, old(View()), now, readFails, unlinkFails)
      ensures var s := ReadResult(env, old(View()), now, readFails);
              r == if s.Some? && s.value.token == token then s else None
    {
      var stored := GetEncryptedSession(now, readFails, unlinkFails);
      if stored.None? || stored.value.token != token {
        return None;
      }
      return stored;
    }
  }

  // ----- agreement of cache and file over every run -----

  datatype DiskOp =
    | Write(session: Stored, fault: WriteFault)
    | Read(now: int, readFails: bool, unlinkFails: bool)
    | Clear(unlinkFails: bool)

  function StepDisk(env: Env, d: Disk, op: DiskOp): Disk {
    match op
    case Write(s, fault) => AfterWrite(env, d, s, fault)
    case Read(now, readFails, unlinkFails) => AfterRead(env, d, now, readFails, unlinkFails)
    case Clear(unlinkFails) => AfterClear(d, unlinkFails)
  }

  /** A process starts with whatever file is there and an unread cache. */
  function RunDisk(env: Env, file: File, h: seq<DiskOp>): Disk {
    if h == [] then Disk(file, Unread) else StepDisk(env, RunDisk(env, file, h[..|h| - 1]), h[|h| - 1])
  }

  /** A cached answer is what the file stands for: the very session, or none by absence, damage or policy. */
  predicate Agrees(env: Env, d: Disk) {
    match d.cache
    case Unread => true
    case Null => Decode(env, d.file) == None
    case Value(s) => Decode(env, d.file) == Some(s)
  }

  /** The operation changes the file, successfully or not. */
  predicate TouchesFile(env: Env, op: DiskOp) {
    (op.Write? && MayWrite(env) && op.fault != FailedIntact) || (op.Clear? && !op.unlinkFails)
  }

  /** The operation is a write that fails once it has begun. */
  predicate HalfFails(env: Env, op: DiskOp) {
    op.Write? && MayWrite(env) && (op.fault == FailedTorn || op.fault == FailedLate)
  }

  /** It fails half-way under a cached session, or at its end under another cached session or a cached null. */
  predicate Spoils(env: Env, d: Disk, op: DiskOp) {
    HalfFails(env, op) &&
    ((op.fault == FailedTorn && d.cache.Value?) ||
     (op.fault == FailedLate && (d.cache.Null? || (d.cache.Value? && d.cache.session != op.session))))
  }

  /** Step `k` spoiled the file under the cache, and nothing has touched the file since. */
  ghost predicate SpoiledAt(env: Env, file: File, h: seq<DiskOp>, k: nat) {
    k < |h| && Spoils(env, RunDisk(env, file, h[..k]), h[k]) && forall j :: k < j < |h| ==> !TouchesFile(env, h[j])
  }

  lemma SpoiledStep(env: Env, file: File, h: seq<DiskOp>, k: nat)
    requires h != []
    ensures var p, op := h[..|h| - 1], h[|h| - 1];
            SpoiledAt(env, file, h, k) <==>
            if k == |p| then Spoils(env, RunDisk(env, file, p), op)
            else SpoiledAt(env, file, p, k) && !TouchesFile(env, op)
  {
    var p := h[..|h| - 1];
    if k < |p| {
      assert h[..k] == p[..k];
      if SpoiledAt(env, file, h, k) {
        forall j | k < j < |p| ensures !TouchesFile(env, p[j]) { assert p[j] == h[j]; }
      }
    }
  }

  /**
   * What a fresh process reads: an encrypted session where the keychain is available, a plain one where it is not and
   * the build is not packaged; and in either case one that is no older than seven days.
   */
  lemma FreshReadIff(env: Env, file: File, now: int, s: Stored)
    ensures FreshRead(env, file, now) == Some(s) <==>
            ((env.encryption && file == Encrypted(s)) || (!env.encryption && !env.packaged && file == Plaintext(s))) &&
            now - s.createdAt <= 7 * 24 * 60 * 60 * 1000
  {
  }

  /**
   * A read that finds nothing deletes the file, if that works, exactly when it looked and could not use what it found:
   * the read failed, or the file does not decode, or its session has expired. It keeps a file that policy refuses.
   */
  lemma ReadDeletesIff(env: Env, d: Disk, now: int, readFails: bool, unlinkFails: bool)
    requires d.file != Absent
    ensures var after := AfterRead(env, d, now, readFails, unlinkFails);
            (after.file == Absent <==>
             d.cache == Unread && !unlinkFails &&
             (readFails || (!(!env.encryption && env.packaged) && FreshRead(env, d.file, now) == None))) &&
            (after.file == Absent || after.file == d.file)
  {
  }

  /** Over every run, no session is written in the clear by a packaged build, or where the keychain is available. */
  lemma {:induction false} NeverInTheClear(env: Env, file: File, h: seq<DiskOp>)
    ensures (env.packaged || env.encryption) && RunDisk(env, file, h).file.Plaintext? ==>
            RunDisk(env, file, h).file == file
  {
    if h != [] {
      NeverInTheClear(env, file, h[..|h| - 1]);
    }
  }

  /** While the file stays spoiled, it is what the failed write left, and the cache is what it was. */
  lemma {:induction false} SpoiledStays(env: Env, file: File, h: seq<DiskOp>, k: nat)
    requires SpoiledAt(env, file, h, k)
    ensures var d, c := RunDisk(env, file, h), RunDisk(env, file, h[..k]);
            d == Disk(Left(env, h[k].session, h[k].fault), c.cache) && d.cache != Unread && !Agrees(env, d)
  {
    SpoiledStep(env, file, h, k);
    var p := h[..|h| - 1];
    if k < |p| {
      assert p[..k] == h[..k];
      SpoiledStays(env, file, p, k);
    }
  }

  /**
   * Over every run of writes, reads and clears with failing input and output, the cache agrees with the file unless a
   * write failed half-way, left something else than what is cached, and nothing has touched the file since.
   */
  lemma {:induction false} CacheAgreesIff(env: Env, file: File, h: seq<DiskOp>)
    ensures Agrees(env, RunDisk(env, file, h)) <==> !exists k :: SpoiledAt(env, file, h, k)
  {
    if k :| SpoiledAt(env, file, h, k) {
      SpoiledStays(env, file, h, k);
    }
    if h != [] && !Agrees(env, RunDisk(env, file, h)) {
      var p, op := h[..|h| - 1], h[|h| - 1];
      CacheAgreesIff(env, file, p);
      if Spoils(env, RunDisk(env, file, p), op) {
        SpoiledStep(env, file, h, |p|);
        assert SpoiledAt(env, file, h, |p|);
      } else {
        DisagreementIsOld(env, RunDisk(env, file, p), op);
        var k :| SpoiledAt(env, file, p, k);
        SpoiledStays(env, file, p, k);
        SpoiledStep(env, file, h, k);
        assert SpoiledAt(env, file, h, k);
      }
    }
  }

  /** An operation that spoils nothing makes no new disagreement; one that touches the file ends an old one. */
  lemma DisagreementIsOld(env: Env, d: Disk, op: DiskOp)
    requires !Agrees(env, StepDisk(env, d, op)) && !Spoils(env, d, op)
    ensures !Agrees(env, d) && !TouchesFile(env, op)
  {
  }

  /** At step `k` a write failed half-way under a cached null, and nothing has touched the file since. */
  ghost predicate LeftUnderNull(env: Env, file: File, h: seq<DiskOp>, k: nat) {
    k < |h| && HalfFails(env, h[k]) && RunDisk(env, file, h[..k]).cache == Null &&
    forall j :: k < j < |h| ==> !TouchesFile(env, h[j])
  }

  lemma LeftStep(env: Env, file: File, h: seq<DiskOp>, k: nat)
    requires h != []
    ensures var p, op := h[..|h| - 1], h[|h| - 1];
            LeftUnderNull(env, file, h, k) <==>
            if k == |p| then HalfFails(env, op) && RunDisk(env, file, p).cache == Null
            else LeftUnderNull(env, file, p, k) && !TouchesFile(env, op)
  {
    var p := h[..|h| - 1];
    if k < |p| {
      assert h[..k] == p[..k];
      if LeftUnderNull(env, file, h, k) {
        forall j | k < j < |p| ensures !TouchesFile(env, p[j]) { assert p[j] == h[j]; }
      }
    }
  }

  lemma {:induction false} LeftStays(env: Env, file: File, h: seq<DiskOp>, k: nat)
    requires LeftUnderNull(env, file, h, k)
    ensures RunDisk(env, file, h) == Disk(Left(env, h[k].session, h[k].fault), Null)
  {
    LeftStep(env, file, h, k);
    if k < |h| - 1 {
      LeftStays(env, file, h[..|h| - 1], k);
    }
  }

  /**
   * Over every run, a cached null means that the file is absent or that the policy refuses it, except exactly where a
   * write has failed half-way under it and nothing has touched the file since.
   */
  lemma {:induction false} NullMeansIff(env: Env, file: File, h: seq<DiskOp>)
    ensures var d := RunDisk(env, file, h);
            d.cache == Null && d.file != Absent && !Refused(env) <==> exists k :: LeftUnderNull(env, file, h, k)
  {
    var d := RunDisk(env, file, h);
    if k :| LeftUnderNull(env, file, h, k) {
      LeftStays(env, file, h, k);
    }
    if h != [] && d.cache == Null && d.file != Absent && !Refused(env) {
      var p, op := h[..|h| - 1], h[|h| - 1];
      NullMeansIff(env, file, p);
      if HalfFails(env, op) {
        LeftStep(env, file, h, |p|);
        assert LeftUnderNull(env, file, h, |p|);
      } else {
        var k :| LeftUnderNull(env, file, p, k);
        LeftStep(env, file, h, k);
        assert LeftUnderNull(env, file, h, k);
      }
    }
  }

  /** The disagreement is real: a session is cached, a second write is torn, and the first is still answered. */
  lemma TornWriteDisagrees(env: Env, file: File, s: Stored, t: Stored, now: int)
    requires MayWrite(env)
    ensures var d := RunDisk(env, file, [Write(s, Wrote), Write(t, FailedTorn)]);
            !Agrees(env, d) && ReadResult(env, d, now, false) == Some(s) && Decode(env, d.file) == None
  {
    var h := [Write(s, Wrote), Write(t, FailedTorn)];
    assert h[..1] == [Write(s, Wrote)] && h[..1][..0] == [];
  }

  /** So is the other kind: after a clear, a write fails at its very end, and the session it wrote is not answered. */
  lemma LateWriteDisagrees(env: Env, file: File, t: Stored, now: int)
    requires MayWrite(env)
    ensures var d := RunDisk(env, file, [Clear(false), Write(t, FailedLate)]);
            !Agrees(env, d) && ReadResult(env, d, now, false) == None && Decode(env, d.file) == Some(t)
  {
    var h := [Clear(false), Write(t, FailedLate)];
    assert h[..1] == [Clear(false)] && h[..1][..0] == [];
  }

  /** What a process that has not read the file yet would answer. */
  function FreshRead(env: Env, file: File, now: int): Option<Stored> {
    ReadResult(env, Disk(file, Unread), now, false)
  }

  lemma CachedReadHere(env: Env, d: Disk, now: int)
    ensures ReadResult(env, d, now, false) == FreshRead(env, d.file, now) <==>
            match d.cache
            case Unread => true
            case Value(s) => Decode(env, d.file) == Some(s) && !Expired(s, now)
            case Null => Decode(env, d.file).None? || Expired(Decode(env, d.file).value, now)
  {
  }

  /**
   * Over every run, a read in this process answers what a fresh process would read exactly when the cached session, if
   * any, has not expired, and no failed write has spoiled the file, except one that left an expired session under a
   * cached null.
   */
  lemma CachedReadIff(env: Env, file: File, h: seq<DiskOp>, now: int)
    ensures var d := RunDisk(env, file, h);
            ReadResult(env, d, now, false) == FreshRead(env, d.file, now) <==>
            !(d.cache.Value? && Expired(d.cache.session, now)) &&
            forall k: nat :: SpoiledAt(env, file, h, k) ==> d.cache.Null? && Expired(h[k].session, now)
  {
    var d := RunDisk(env, file, h);
    CachedReadHere(env, d, now);
    CacheAgreesIff(env, file, h);
    forall k: nat | SpoiledAt(env, file, h, k)
      ensures d.file == Left(env, h[k].session, h[k].fault) && d.cache != Unread && !Agrees(env, d)
    {
      SpoiledStays(env, file, h, k);
    }
  }

  /**
   * An expired session is still answered from the cache: the read that found it looked at the expiry, the next does
   * not.
   */
  lemma ExpiredReadAnswered(s: Stored, packaged: bool)
    ensures var env := Env(true, packaged);
            var now, later := s.createdAt, s.createdAt + LONG_MS + 1;
            var d := RunDisk(env, Encrypted(s), [Read(now, false, false)]);
            Agrees(env, d) && ReadResult(env, d, later, false) == Some(s) && FreshRead(env, d.file, later) == None
  {
    var h := [Read(s.createdAt, false, false)];
    assert h[..0] == [];
  }

  /** A read that finds a session leaves the file alone and every later read finds the same. */
  lemma ReadIsStable(env: Env, d: Disk, now: int, readFails: bool, unlinkFails: bool, later: int, f: bool)
    requires ReadResult(env, d, now, readFails).Some?
    ensures var e := AfterRead(env, d, now, readFails, unlinkFails);
            e.file == d.file && ReadResult(env, e, later, f) == ReadResult(env, d, now, readFails)
  {
  }
}
