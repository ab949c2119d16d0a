/** The account-lock attributes in LDAP: password operations and the nightly expiry sweep. */
module AccountLock {
  import opened Common

  const SECONDS_PER_DAY := 86_400

  datatype Dn = Dn(text: string)

  /** pwdChangedTime: not there, a time in epoch seconds, or a value that does not parse. */
  datatype ChangedTime = NoTime | At(seconds: int) | BadTime

  /** shadowLastChange: not there, an epoch day, or a value that is no number. */
  datatype ChangedDay = NoDay | Day(day: int) | BadDay

  datatype Entry = Entry(
    dn: Dn,
    shadowExpire: Option<int>,
    lockedTime: Option<string>,
    pwdReset: bool,
    pwdChangedTime: ChangedTime,
    shadowLastChange: ChangedDay)

  /** What the directory server itself does to an entry when its password is written. */
  datatype Overlay = Overlay(stamp: Option<int>, clearsLock: bool, clearsReset: bool)

  /** The LDAP modifications that the code makes one after the other. */
  datatype Modification = Expire | LockTime | ResetFlag | Baseline

  /** Which modifications go through, the others being refused or never reached, and whether one raises. */
  datatype Fate = Fate(went: set<Modification>, raises: bool)

  const ALL: set<Modification> := {Expire, LockTime, ResetFlag, Baseline}
  const SMOOTH := Fate(ALL, false)

  datatype Mark = LockedNow | Baselined | AlreadyLocked | NotExpired | Errored

  datatype Report = Disabled | Report(total: nat, locked: nat, baselined: nat, already: nat, notExpired: nat,
      errors: nat)

  datatype Answer = Changed | ReadOnly | UserNotFound | BindRefused | ModifyFailed

  // ---------------------------------------------------------------- one entry

  predicate Locked(e: Entry) {
    e.shadowExpire == Some(1)
  }

  /** _set_shadow_lock; it swallows whatever raises. */
  function SetShadowLock(e: Entry, went: set<Modification>): Entry {
    e.(shadowExpire := if Expire in went then Some(1) else e.shadowExpire,
       lockedTime := if LockTime in went then Some("000001010000Z") else e.lockedTime)
  }

  /** _clear_shadow_lock; shadowExpire and shadowLastChange are one modification. */
  function ClearShadowLock(e: Entry, today: int, went: set<Modification>): Entry {
    e.(shadowExpire := if Expire in went then None else e.shadowExpire,
       shadowLastChange := if Expire in went then Day(today) else e.shadowLastChange,
       pwdReset := e.pwdReset && ResetFlag !in went,
       lockedTime := if LockTime in went then None else e.lockedTime)
  }

  /** userPassword is replaced; the server's password policy may touch its own attributes. */
  function WritePassword(e: Entry, overlay: Overlay): Entry {
    e.(pwdChangedTime := if overlay.stamp.Some? then At(overlay.stamp.value) else e.pwdChangedTime,
       lockedTime := if overlay.clearsLock then None else e.lockedTime,
       pwdReset := if overlay.clearsReset then false else e.pwdReset)
  }

  /** `flagged`: the modification of pwdReset before the locks goes through. */
  function ResetEntry(e: Entry, overlay: Overlay, mustChange: bool, today: int, flagged: bool,
      went: set<Modification>): Entry {
    var e1 := WritePassword(e, overlay);
    var e2 := e1.(pwdReset := if flagged then mustChange else e1.pwdReset);
    if mustChange then SetShadowLock(e2, went) else ClearShadowLock(e2, today, went)
  }

  function ChangeEntry(e: Entry, overlay: Overlay, today: int, went: set<Modification>): Entry {
    ClearShadowLock(WritePassword(e, overlay), today, went)
  }

  /** The day of the last password change; None when neither attribute tells. */
  function ChangedOn(e: Entry): Option<int> {
    if e.pwdChangedTime.At? then Some(e.pwdChangedTime.seconds / SECONDS_PER_DAY)
    else if e.shadowLastChange.Day? then Some(e.shadowLastChange.day)
    else None
  }

  /** What the sweep does to one entry. */
  function SweepEntry(e: Entry, today: int, maxAge: int, dry: bool, fate: Fate): (Entry, Mark) {
    if ChangedOn(e) == None then
      if dry then (e, Baselined)
      else
        (if Baseline in fate.went then e.(shadowLastChange := Day(today)) else e,
         if fate.raises then Errored else Baselined)
    else if today - ChangedOn(e).value > maxAge then
      if e.shadowExpire == Some(1) then (e, AlreadyLocked)
      else (if dry then e else SetShadowLock(e, fate.went), LockedNow)
    else (e, NotExpired)
  }

  // ---------------------------------------------------------------- the whole directory

  function FateOf(fates: map<Dn, Fate>, dn: Dn): Fate {
    if dn in fates then fates[dn] else SMOOTH
  }

  function Swept(entries: seq<Entry>, today: int, maxAge: int, dry: bool, fates: map<Dn, Fate>): seq<Entry> {
    seq(|entries|,
      i requires 0 <= i < |entries| => SweepEntry(entries[i], today, maxAge, dry, FateOf(fates, entries[i].dn)).0)
  }

  function Marks(entries: seq<Entry>, today: int, maxAge: int, dry: bool, fates: map<Dn, Fate>): seq<Mark> {
    seq(|entries|,
      i requires 0 <= i < |entries| => SweepEntry(entries[i], today, maxAge, dry, FateOf(fates, entries[i].dn)).1)
  }

  function Count(marks: seq<Mark>, mark: Mark): nat {
    if marks == [] then 0 else Count(marks[..|marks| - 1], mark) + if marks[|marks| - 1] == mark then 1 else 0
  }

  function Tally(total: nat, marks: seq<Mark>): Report {
    Report(total, Count(marks, LockedNow), Count(marks, Baselined), Count(marks, AlreadyLocked),
      Count(marks, NotExpired), Count(marks, Errored))
  }

  /** One of the five counters goes up. */
  function Bumped(r: Report, mark: Mark): Report
    requires r.Report?
  {
    match mark
    case LockedNow => r.(locked := r.locked + 1)
    case Baselined => r.(baselined := r.baselined + 1)
    case AlreadyLocked => r.(already := r.already + 1)
    case NotExpired => r.(notExpired := r.notExpired + 1)
    case Errored => r.(errors := r.errors + 1)
  }

  function SweepReport(entries: seq<Entry>, today: int, maxAge: int, dry: bool, fates: map<Dn, Fate>): Report {
    if maxAge <= 0 then Disabled else Tally(|entries|, Marks(entries, today, maxAge, dry, fates))
  }

  function AfterSweep(entries: seq<Entry>, today: int, maxAge: int, dry: bool, fates: map<Dn, Fate>): seq<Entry> {
    if maxAge <= 0 then entries else Swept(entries, today, maxAge, dry, fates)
  }

  function Find(entries: seq<Entry>, dn: Dn): (k: Option<nat>)
    ensures k.Some? ==> k.value < |entries| && entries[k.value].dn == dn
    ensures k == None ==> forall i :: 0 <= i < |entries| ==> entries[i].dn != dn
  {
    if entries == [] then None
    else if entries[|entries| - 1].dn == dn then Some(|entries| - 1)
    else Find(entries[..|entries| - 1], dn)
  }

  class Directory {
    var entries: seq<Entry>

    constructor ()
      ensures entries == []
    {
      entries := [];
    }

    method ResetUserPassword(
        dn: Dn, isMaster: bool, written: bool, overlay: Overlay, mustChange: bool, today: int, flagged: bool,
          went: set<Modification>)
        returns (answer: Answer)
      modifies this
      ensures answer == ReadOnly <==> !isMaster
      ensures isMaster ==> (answer == UserNotFound <==> Find(old(entries), dn) == None)
      ensures isMaster && Find(old(entries), dn).Some? ==> answer == if written then Changed else ModifyFailed
      ensures answer != Changed ==> entries == old(entries)
      ensures answer == Changed ==>
                var k := Find(old(entries), dn).value;
                entries == old(entries)[k := ResetEntry(old(entries)[k], overlay, mustChange, today, flagged, went)]
    {
      if !isMaster {
        return ReadOnly;
      }
      var k := Find(entries, dn);
      if k == None {
        return UserNotFound;
      }
      if !written {
        return ModifyFailed;
      }
      var e := WritePassword(entries[k.value], overlay);
      if flagged {
        e := e.(pwdReset := mustChange);
      }
      if mustChange {
        e := SetShadowLock(e, went);
      } else {
        e := ClearShadowLock(e, today, went);
      }
      entries := entries[k.value := e];
      answer := Changed;
    }

    /** change_own_password; complete_reset and the portal's change end the same way. */
    method ChangeOwnPassword(dn: Dn, bound: bool, written: bool, overlay: Overlay, today: int, went: set<Modification>)
        returns (answer: Answer)
      modifies this
      ensures answer == BindRefused <==> !bound
      ensures answer == Changed <==> bound && written && Find(old(entries), dn).Some?
      ensures answer in {BindRefused, Changed, ModifyFailed}
      ensures answer != Changed ==> entries == old(entries)
      ensures answer == Changed ==>
                var k := Find(old(entries), dn).value;
                entries == old(entries)[k := ChangeEntry(old(entries)[k], overlay, today, went)]
    {
      if !bound {
        return BindRefused;
      }
      var k := Find(entries, dn);
      if k == None || !written {
        return ModifyFailed;
      }
      entries := entries[k.value := ClearShadowLock(WritePassword(entries[k.value], overlay), today, went)];
      answer := Changed;
    }

    /** One turn of the sweep's loop, on the entry as the search found it. */
    method SweepOne(i: nat, today: int, maxAge: int, dry: bool, fate: Fate) returns (mark: Mark)
      requires i < |entries|
      modifies this
      ensures entries == old(entries)[i := SweepEntry(old(entries)[i], today, maxAge, dry, fate).0]
      ensures mark == SweepEntry(old(entries)[i], today, maxAge, dry, fate).1
    {
      var e := entries[i];
      var day := ChangedOn(e);
      if day == None {
        if dry {
          return Baselined;
        }
        if Baseline in fate.went {
          entries := entries[i := e.(shadowLastChange := Day(today))];
        }
        return if fate.raises then Errored else Baselined;
      }
      if today - day.value <= maxAge {
        return NotExpired;
      }
      if e.shadowExpire == Some(1) {
        return AlreadyLocked;
      }
      if !dry {
        entries := entries[i := SetShadowLock(e, fate.went)];
      }
      mark := LockedNow;
    }

    /** The nightly sweep: one pass over the entries, five counters. */
    method Sweep(today: int, maxAge: int, dry: bool, fates: map<Dn, Fate>) returns (report: Report)
      modifies this
      ensures entries == AfterSweep(old(entries), today, maxAge, dry, fates)
      ensures report == SweepReport(old(entries), today, maxAge, dry, fates)
    {
      if maxAge <= 0 {
        return Disabled;
      }
      report := Report(|entries|, 0, 0, 0, 0, 0);
      ghost var found, marks := entries, Marks(entries, today, maxAge, dry, fates);
      for i := 0 to |entries|
        invariant |entries| == |found| == |marks|
        invariant entries == Swept(found, today, maxAge, dry, fates)[..i] + found[i..]
        invariant report == Tally(|found|, marks[..i])
      {
        var mark := SweepOne(i, today, maxAge, dry, FateOf(fates, entries[i].dn));
        TallyNext(|found|, marks, i);
        SpliceNext(Swept(found, today, maxAge, dry, fates), found, i);
        report := Bumped(report, mark);
      }
      assert marks[..|found|] == marks;
    }
  }

  /** Replacing element i moves the border between the two sequences by one. */
  lemma SpliceNext<T>(done: seq<T>, todo: seq<T>, i: nat)
    requires |done| == |todo| && i < |done|
    ensures (done[..i] + todo[i..])[i := done[i]] == done[..i + 1] + todo[i + 1..]
  {
  }

  lemma TallyNext(total: nat, marks: seq<Mark>, i: nat)
    requires i < |marks|
    ensures Tally(total, marks[..i + 1]) == Bumped(Tally(total, marks[..i]), marks[i])
  {
    assert marks[..i + 1][..i] == marks[..i];
  }

  // ---------------------------------------------------------------- what the sweep reports

  lemma {:induction false} CountsAddUp(marks: seq<Mark>)
    ensures Count(marks, LockedNow) + Count(marks, Baselined) + Count(marks, AlreadyLocked) + Count(marks, NotExpired)
            + Count(marks, Errored) == |marks|
  {
    if marks != [] {
      CountsAddUp(marks[..|marks| - 1]);
    }
  }

  lemma {:induction false} CountIsZero(marks: seq<Mark>, mark: Mark)
    requires mark !in marks
    ensures Count(marks, mark) == 0
  {
    if marks != [] {
      CountIsZero(marks[..|marks| - 1], mark);
    }
  }

  /** The five counters sum to the total, whatever fails; a dry run counts the same and writes nothing. */
  lemma SweepCounts(entries: seq<Entry>, today: int, maxAge: int, dry: bool, fates: map<Dn, Fate>)
    requires maxAge > 0
    ensures var r := SweepReport(entries, today, maxAge, dry, fates);
            r.total == |entries| && r.locked + r.baselined + r.already + r.notExpired + r.errors == r.total
    ensures AfterSweep(entries, today, maxAge, true, fates) == entries
    ensures fates == map[] ==>
            SweepReport(entries, today, maxAge, true, fates) == SweepReport(entries, today, maxAge, false, fates)
  {
    CountsAddUp(Marks(entries, today, maxAge, dry, fates));
    if fates == map[] {
      assert Marks(entries, today, maxAge, true, fates) == Marks(entries, today, maxAge, false, fates);
    }
  }

  /** An entry is locked by a sweep only if its password's known age is more than the maximum. */
  lemma SweepLocksOnlyExpired(e: Entry, today: int, maxAge: int, dry: bool, fate: Fate)
    ensures var e' := SweepEntry(e, today, maxAge, dry, fate).0;
            && (e' != e ==> !dry && (ChangedOn(e) == None || today - ChangedOn(e).value > maxAge))
            && (!Locked(e) && Locked(e') ==> !dry && ChangedOn(e).Some? && today - ChangedOn(e).value > maxAge)
            && (!Locked(e) && !dry && ChangedOn(e).Some? && today - ChangedOn(e).value > maxAge ==>
                  (Locked(e') <==> Expire in fate.went))
  {
  }

  /** A second sweep on the same day, after one in which nothing raised, locks and baselines nobody. */
  lemma SecondSweepIsQuiet(entries: seq<Entry>, today: int, maxAge: int, dry: bool, fates: map<Dn, Fate>)
    requires maxAge > 0
    ensures var r := SweepReport(AfterSweep(entries, today, maxAge, false, map[]), today, maxAge, dry, fates);
            r.locked == 0 && r.baselined == 0 && r.errors == 0
    ensures AfterSweep(AfterSweep(entries, today, maxAge, false, map[]), today, maxAge, dry, fates)
            == AfterSweep(entries, today, maxAge, false, map[])
  {
    var once := AfterSweep(entries, today, maxAge, false, map[]);
    var marks := Marks(once, today, maxAge, dry, fates);
    forall i | 0 <= i < |marks| ensures marks[i] in {AlreadyLocked, NotExpired} {
      assert once[i] == SweepEntry(entries[i], today, maxAge, false, SMOOTH).0;
    }
    CountIsZero(marks, LockedNow);
    CountIsZero(marks, Baselined);
    CountIsZero(marks, Errored);
  }

  // ---------------------------------------------------------------- the lock attributes stay consistent

  /** The POSIX lock and the directory's own lock come together, and a forced change is always locked. */
  predicate Consistent(e: Entry) {
    && (Locked(e) <==> e.lockedTime.Some?)
    && (e.pwdReset ==> Locked(e))
  }

  datatype Call =
    | Create(dn: Dn)
    | Remove(dn: Dn)
    | Reset(dn: Dn, overlay: Overlay, mustChange: bool, today: int)
    | Change(dn: Dn, overlay: Overlay, today: int)
    | SweepAll(today: int, maxAge: int, dry: bool)

  /** The directory after a call whose LDAP modifications all succeed. */
  function Perform(entries: seq<Entry>, call: Call): seq<Entry> {
    match call
    case Create(dn) =>
      if Find(entries, dn) == None then entries + [Entry(dn, None, None, false, NoTime, NoDay)] else entries
    case Remove(dn) =>
      var k := Find(entries, dn);
      if k == None then entries else entries[..k.value] + entries[k.value + 1..]
    case Reset(dn, overlay, mustChange, today) =>
      var k := Find(entries, dn);
      if k == None then entries
        else entries[k.value := ResetEntry(entries[k.value], overlay, mustChange, today, true, ALL)]
    case Change(dn, overlay, today) =>
      var k := Find(entries, dn);
      if k == None then entries else entries[k.value := ChangeEntry(entries[k.value], overlay, today, ALL)]
    case SweepAll(today, maxAge, dry) => AfterSweep(entries, today, maxAge, dry, map[])
  }

  function After(calls: seq<Call>): seq<Entry> {
    if calls == [] then [] else Perform(After(calls[..|calls| - 1]), calls[|calls| - 1])
  }

  /** A forced change locks, an unforced one and the user's own unlock, and nothing leaves half a lock. */
  lemma EntryStaysConsistent(e: Entry, overlay: Overlay, mustChange: bool, today: int, maxAge: int, dry: bool)
    ensures var r, c := ResetEntry(e, overlay, mustChange, today, true, ALL), ChangeEntry(e, overlay, today, ALL);
            && Consistent(r) && Consistent(c)
            && r.pwdReset == mustChange && Locked(r) == mustChange
            && !c.pwdReset && !Locked(c)
    ensures Consistent(e) ==> Consistent(SweepEntry(e, today, maxAge, dry, SMOOTH).0)
  {
  }

  /**
   * When modifications of the sweep fail, the entry stays consistent exactly unless one of the two lock
   * attributes alone is set; if that is shadowExpire, every later sweep takes the entry for locked and leaves it.
   */
  lemma HalfLockedIff(e: Entry, today: int, maxAge: int, dry: bool, fate: Fate, later: int, laterFate: Fate)
    requires Consistent(e)
    ensures var (e', mark) := SweepEntry(e, today, maxAge, dry, fate);
            && (Consistent(e') <==> dry || mark != LockedNow || (Expire in fate.went <==> LockTime in fate.went))
            && (!Consistent(e') && Locked(e') ==> SweepEntry(e', later, maxAge, false, laterFate).0 == e')
  {
  }

  /**
   * The password operations swallow the same failures. From a consistent entry they end in a consistent one
   * exactly when both lock attributes end alike and pwdReset does not outlive the lock.
   */
  lemma PartialWriteIff(e: Entry, overlay: Overlay, today: int, flagged: bool, went: set<Modification>)
    requires Consistent(e)
    ensures var locks, times := Expire in went || Locked(e), LockTime in went || (Locked(e) && !overlay.clearsLock);
            Consistent(ResetEntry(e, overlay, true, today, flagged, went)) <==>
              (locks <==> times) && (flagged || (e.pwdReset && !overlay.clearsReset) ==> locks)
    ensures var locks, times := Expire !in went && Locked(e), LockTime !in went && Locked(e) && !overlay.clearsLock;
            var resets := e.pwdReset && !overlay.clearsReset && ResetFlag !in went;
            && (Consistent(ChangeEntry(e, overlay, today, went)) <==> (locks <==> times) && (resets ==> locks))
            && (Consistent(ResetEntry(e, overlay, false, today, flagged, went)) <==>
                (locks <==> times) && (resets && !flagged ==> locks))
  {
  }

  /** The failure happens: pwdReset set, then the locks refused, leaves a forced change without a lock. */
  lemma ForcedChangeWithoutLock(dn: Dn, overlay: Overlay, today: int)
    ensures var e := ResetEntry(Entry(dn, None, None, false, NoTime, NoDay), overlay, true, today, true, {});
            e.pwdReset && !Locked(e) && !Consistent(e)
  {
  }

  lemma CallKeepsConsistent(entries: seq<Entry>, call: Call, i: nat)
    requires forall k :: 0 <= k < |entries| ==> Consistent(entries[k])
    requires i < |Perform(entries, call)|
    ensures Consistent(Perform(entries, call)[i])
  {
    match call
    case Create(_) =>
    case Remove(_) =>
    case Reset(dn, overlay, mustChange, today) =>
      if Find(entries, dn).Some? { EntryStaysConsistent(entries[i], overlay, mustChange, today, 0, true); }
    case Change(dn, overlay, today) =>
      if Find(entries, dn).Some? { EntryStaysConsistent(entries[i], overlay, false, today, 0, true); }
    case SweepAll(today, maxAge, dry) =>
      EntryStaysConsistent(entries[i], Overlay(None, false, false), false, today, maxAge, dry);
  }

  /** Over every run of password operations and sweeps, the lock attributes of every entry stay consistent. */
  lemma {:induction false} LocksStayConsistent(calls: seq<Call>)
    ensures forall i :: 0 <= i < |After(calls)| ==> Consistent(After(calls)[i])
  {
    if calls != [] {
      var init := calls[..|calls| - 1];
      LocksStayConsistent(init);
      forall i | 0 <= i < |After(calls)| ensures Consistent(After(calls)[i]) {
        CallKeepsConsistent(After(init), calls[|calls| - 1], i);
      }
    }
  }

  // ---------------------------------------------------------------- how long a new password lasts

  /** The entry after real sweeps on these days. */
  function SweptOn(e: Entry, days: seq<int>, maxAge: int): Entry {
    if days == [] then e
      else SweepEntry(SweptOn(e, days[..|days| - 1], maxAge), days[|days| - 1], maxAge, false, SMOOTH).0
  }

  /**
   * A changed password keeps its user unlocked until its age exceeds the maximum, and the first sweep after
   * that locks, provided the server stamps pwdChangedTime on that day or never has.
   */
  lemma {:induction false} PasswordLastsMaxAge(e: Entry, overlay: Overlay, today: int, days: seq<int>, maxAge: int)
    requires if overlay.stamp.Some? then overlay.stamp.value / 86_400 == today else !e.pwdChangedTime.At?
    ensures var e' := SweptOn(ChangeEntry(e, overlay, today, ALL), days, maxAge);
            && ChangedOn(e') == Some(today)
            && (Locked(e') <==> exists i :: 0 <= i < |days| && days[i] > today + maxAge)
  {
    if days != [] {
      PasswordLastsMaxAge(e, overlay, today, days[..|days| - 1], maxAge);
      assert days == days[..|days| - 1] + [days[|days| - 1]];
    }
  }
}
