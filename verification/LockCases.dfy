/** The password operations and the sweep case by case, on the attributes of an entry. */
module LockCases {
  import opened Common
  import opened AccountLock

  /** A password set by an admin, attribute by attribute; `went` names the modifications that go through. */
  lemma ResetColumns(
      e: Entry, overlay: Overlay, mustChange: bool, today: int, flagged: bool, went: set<Modification>)
    ensures var e' := ResetEntry(e, overlay, mustChange, today, flagged, went);
            && e'.dn == e.dn
            && (overlay.stamp.Some? ==> e'.pwdChangedTime == At(overlay.stamp.value))
            && (overlay.stamp == None ==> e'.pwdChangedTime == e.pwdChangedTime)
            && (Expire in went ==> e'.shadowExpire == if mustChange then Some(1) else None)
            && (Expire !in went ==> e'.shadowExpire == e.shadowExpire)
            && (LockTime in went ==> e'.lockedTime == if mustChange then Some("000001010000Z") else None)
            && (LockTime !in went ==> e'.lockedTime == if overlay.clearsLock then None else e.lockedTime)
            && (!mustChange && Expire in went ==> e'.shadowLastChange == Day(today))
            && (mustChange || Expire !in went ==> e'.shadowLastChange == e.shadowLastChange)
            && (flagged ==> e'.pwdReset == mustChange)
            && (!flagged && (overlay.clearsReset || (!mustChange && ResetFlag in went)) ==> !e'.pwdReset)
            && (!flagged && !overlay.clearsReset && (mustChange || ResetFlag !in went) ==> e'.pwdReset == e.pwdReset)
  {
  }

  /** The user's own change, attribute by attribute. */
  lemma ChangeColumns(e: Entry, overlay: Overlay, today: int, went: set<Modification>)
    ensures var e' := ChangeEntry(e, overlay, today, went);
            && e'.dn == e.dn
            && (overlay.stamp.Some? ==> e'.pwdChangedTime == At(overlay.stamp.value))
            && (overlay.stamp == None ==> e'.pwdChangedTime == e.pwdChangedTime)
            && (Expire in went ==> e'.shadowExpire == None && e'.shadowLastChange == Day(today))
            && (Expire !in went ==> e'.shadowExpire == e.shadowExpire && e'.shadowLastChange == e.shadowLastChange)
            && (LockTime in went || overlay.clearsLock ==> e'.lockedTime == None)
            && (LockTime !in went && !overlay.clearsLock ==> e'.lockedTime == e.lockedTime)
            && (ResetFlag in went || overlay.clearsReset ==> !e'.pwdReset)
            && (ResetFlag !in went && !overlay.clearsReset ==> e'.pwdReset == e.pwdReset)
  {
  }

  /** Neither attribute tells when the password was changed. */
  predicate AgeUnknown(e: Entry) {
    (e.pwdChangedTime == NoTime || e.pwdChangedTime == BadTime)
    && (e.shadowLastChange == NoDay || e.shadowLastChange == BadDay)
  }

  /** The password is more than `maxAge` days old, by pwdChangedTime, and by shadowLastChange where there is none. */
  predicate TooOld(e: Entry, today: int, maxAge: int) {
    match e.pwdChangedTime
    case At(seconds) => today - seconds / 86_400 > maxAge
    case _ => e.shadowLastChange.Day? && today - e.shadowLastChange.day > maxAge
  }

  /** One entry in a sweep: what is counted, and which attributes are written. */
  lemma SweepCases(e: Entry, today: int, maxAge: int, dry: bool, fate: Fate)
    ensures var (e', mark) := SweepEntry(e, today, maxAge, dry, fate);
            && (mark == Errored <==> AgeUnknown(e) && !dry && fate.raises)
            && (mark == Baselined <==> AgeUnknown(e) && (dry || !fate.raises))
            && (mark == AlreadyLocked <==> TooOld(e, today, maxAge) && e.shadowExpire == Some(1))
            && (mark == LockedNow <==> TooOld(e, today, maxAge) && e.shadowExpire != Some(1))
            && (mark == NotExpired <==> !AgeUnknown(e) && !TooOld(e, today, maxAge))
            && (dry || mark in {AlreadyLocked, NotExpired} ==> e' == e)
            && (!dry && AgeUnknown(e) ==>
                  e' == if Baseline in fate.went then e.(shadowLastChange := Day(today)) else e)
            && (!dry && mark == LockedNow ==>
                  && e' == e.(shadowExpire := e'.shadowExpire, lockedTime := e'.lockedTime)
                  && e'.shadowExpire == (if Expire in fate.went then Some(1) else e.shadowExpire)
                  && e'.lockedTime == if LockTime in fate.went then Some("000001010000Z") else e.lockedTime)
  {
  }

  /** The sweep treats each entry by itself; with a maximum age of zero or less it does nothing. */
  lemma EachEntryIsSwept(entries: seq<Entry>, today: int, maxAge: int, dry: bool, fates: map<Dn, Fate>, i: nat)
    requires i < |entries|
    ensures maxAge <= 0 ==> AfterSweep(entries, today, maxAge, dry, fates) == entries
                              && SweepReport(entries, today, maxAge, dry, fates) == Disabled
    ensures maxAge > 0 ==>
              && |AfterSweep(entries, today, maxAge, dry, fates)| == |entries|
              && (entries[i].dn in fates ==>
                    AfterSweep(entries, today, maxAge, dry, fates)[i] ==
                    SweepEntry(entries[i], today, maxAge, dry, fates[entries[i].dn]).0)
              && (entries[i].dn !in fates ==>
                    AfterSweep(entries, today, maxAge, dry, fates)[i] ==
                    SweepEntry(entries[i], today, maxAge, dry, Fate({Expire, LockTime, ResetFlag, Baseline}, false)).0)
  {
  }

  /** The entries of which the sweep says this. */
  ghost function Marked(entries: seq<Entry>, today: int, maxAge: int, dry: bool, fates: map<Dn, Fate>, mark: Mark)
      : set<nat> {
    set i: nat | i < |entries| && SweepEntry(entries[i], today, maxAge, dry, FateOf(fates, entries[i].dn)).1 == mark
  }

  ghost function Positions(marks: seq<Mark>, mark: Mark): set<nat> {
    set i: nat | i < |marks| && marks[i] == mark
  }

  lemma {:induction false} CountMeaning(marks: seq<Mark>, mark: Mark)
    ensures Count(marks, mark) == |Positions(marks, mark)|
  {
    if marks != [] {
      var n := |marks| - 1;
      CountMeaning(marks[..n], mark);
      assert Positions(marks, mark) == Positions(marks[..n], mark) + if marks[n] == mark then {n} else {};
    }
  }

  /** Each of the five counters counts the entries of its kind. */
  lemma CountersMeaning(entries: seq<Entry>, today: int, maxAge: int, dry: bool, fates: map<Dn, Fate>)
    requires maxAge > 0
    ensures SweepReport(entries, today, maxAge, dry, fates) ==
            Report(|entries|,
              |Marked(entries, today, maxAge, dry, fates, LockedNow)|,
              |Marked(entries, today, maxAge, dry, fates, Baselined)|,
              |Marked(entries, today, maxAge, dry, fates, AlreadyLocked)|,
              |Marked(entries, today, maxAge, dry, fates, NotExpired)|,
              |Marked(entries, today, maxAge, dry, fates, Errored)|)
  {
    var marks := Marks(entries, today, maxAge, dry, fates);
    forall mark: Mark ensures Count(marks, mark) == |Marked(entries, today, maxAge, dry, fates, mark)| {
      CountMeaning(marks, mark);
      assert Positions(marks, mark) == Marked(entries, today, maxAge, dry, fates, mark);
    }
  }

  /** The entry of a DN that one entry alone has. */
  lemma {:induction false} EntryIsFound(entries: seq<Entry>, dn: Dn, k: nat)
    requires k < |entries| && entries[k].dn == dn
    requires forall i :: 0 <= i < |entries| && i != k ==> entries[i].dn != dn
    ensures Find(entries, dn) == Some(k)
  {
    var n := |entries| - 1;
    if k < n {
      assert entries[n].dn != dn;
      EntryIsFound(entries[..n], dn, k);
    }
  }
}
