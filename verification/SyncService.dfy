/**
 * The scan of sync_service.py as it runs: dictionaries and counters filled in loops, the discrepancy table updated
 * record by record.
 */
module SyncService {
  import opened Common
  import opened SyncModel

  datatype ScanReport = ScanReport(
    totalLdap: nat, totalDb: nat,
    orphanLdap: nat, orphanDb: nat, attributeDrift: nat, mfaFlagDrift: nat, inSync: nat,
    added: nat, autoResolved: nat, superseded: nat)

  datatype StatusReport = StatusReport(totalDb: nat, inSync: nat, discrepancies: nat, byKind: map<Kind, nat>)

  /** The metadata table once the agreeing users have been stamped. */
  function MarkInSync(metas: map<Uid, Meta>, agree: set<Uid>, now: int): map<Uid, Meta> {
    map u | u in metas :: if u in agree then metas[u].(inSync := true, syncedAt := Some(now)) else metas[u]
  }

  function CountKind(rows: seq<Row>, kind: Kind): nat {
    if rows == [] then 0
    else CountKind(rows[..|rows| - 1], kind) + if Unresolved(rows[|rows| - 1]) && rows[|rows| - 1].key.kind == kind
      then 1 else 0
  }

  /** Records as the scan writes them: open, with the DN, the row id and the values of the difference. */
  predicate AreNew(added: seq<Row>, found: map<Key, Finding>) {
    forall i :: 0 <= i < |added| ==>
      added[i].key in found && added[i].finding == found[added[i].key]
      && added[i].resolvedAt == None && added[i].action == None
  }

  /** New records have been added behind the ones that were there, one for each of `done` that had none. */
  ghost predicate AddedTo(was: seq<Row>, rows: seq<Row>, found: map<Key, Finding>, done: set<Key>) {
    && MirrorsPart(rows, found, done)
    && |was| <= |rows| && rows[..|was|] == was && AreNew(rows[|was|..], found)
  }

  lemma AddOne(was: seq<Row>, rows: seq<Row>, found: map<Key, Finding>, done: set<Key>, key: Key)
    requires AddedTo(was, rows, found, done) && key in found && key !in done
    ensures AddedTo(was, rows + [Row(key, found[key], None, None)], found, done + {key})
  {
    var row := Row(key, found[key], None, None);
    AppendCurrent(rows, found, done, row);
    assert (rows + [row])[|was|..] == rows[|was|..] + [row];
  }

  lemma NoneAdded(rows: seq<Row>, found: map<Key, Finding>, seen: set<Key>)
    requires MirrorsPart(rows, found, seen)
    ensures AddedTo(rows, rows, found, seen)
  {
    assert rows[|rows|..] == [];
  }

  lemma AllAdded(keys: set<Key>, seen: set<Key>)
    requires seen <= keys
    ensures seen + (keys - seen) == keys && |seen| + |keys - seen| == |keys|
  {
  }

  class SyncStore {
    var metas: map<Uid, Meta>
    var rows: seq<Row>

    /**
     * The whole scan. `entries` is the result of the LDAP search. Afterwards the unresolved records are
     * in bijection with the differences, and the counters account for every record and every difference.
     */
    method ScanUserSync(entries: seq<Entry>, now: int) returns (report: ScanReport)
      modifies this
      ensures var ldap := BuildUsers(entries);
              var found := Differences(ldap, old(metas));
              var walk := WalkRows(old(rows), found, now);
              && Mirrors(rows, found)
              && |rows| == |old(rows)| + report.added && rows[..|old(rows)|] == walk.rows
              && AreNew(rows[|old(rows)|..], found)
              && report.autoResolved == walk.autoResolved && report.superseded == walk.superseded
              && |walk.seen| + report.superseded + report.autoResolved == UnresolvedCount(old(rows))
              && |walk.seen| + report.added == |found|
      ensures var ldap := BuildUsers(entries);
              && report.totalLdap == |ldap| && report.totalDb == |old(metas)|
              && report.orphanLdap == |UidsOf(OrphanLdap, ldap, old(metas))|
              && report.orphanDb == |UidsOf(OrphanDb, ldap, old(metas))|
              && report.attributeDrift == |UidsOf(AttributeDrift, ldap, old(metas))|
              && report.mfaFlagDrift == |UidsOf(MfaFlagDrift, ldap, old(metas))|
              && report.inSync == |InSyncUids(ldap, old(metas))|
              && metas == MarkInSync(old(metas), InSyncUids(ldap, old(metas)), now)
    {
      var ldap := LoadUsers(entries);
      var found, orphanLdap := AddOrphansLdap(ldap);
      var orphanDb;
      found, orphanDb := AddOrphansDb(ldap, found);
      var attributeDrift, mfaFlagDrift, agree;
      found, attributeDrift, mfaFlagDrift, agree := AddDrifts(ldap, found);
      var added, autoResolved, superseded := Reconcile(found, now);
      report := ScanReport(|ldap|, |metas|, orphanLdap, orphanDb, attributeDrift, mfaFlagDrift, |agree|, added,
        autoResolved, superseded);
      metas := MarkInSync(metas, agree, now);
    }

    method LoadUsers(entries: seq<Entry>) returns (users: map<Uid, LdapUser>)
      ensures users == BuildUsers(entries)
    {
      users := map[];
      for i := 0 to |entries|
        invariant users == BuildUsers(entries[..i])
      {
        assert entries[..i + 1][..i] == entries[..i];
        var e := entries[i];
        if e.uid != [] {
          users := users[e.uid[0] := View(e)];
        }
      }
      assert entries[..|entries|] == entries;
    }

    /** Users that only LDAP has. */
    method AddOrphansLdap(ldap: map<Uid, LdapUser>) returns (found: map<Key, Finding>, count: nat)
      ensures found == Part(Differences(ldap, metas), ldap.Keys - metas.Keys)
      ensures count == |UidsOf(OrphanLdap, ldap, metas)|
    {
      var todo := ldap.Keys - metas.Keys;
      ghost var all := todo;
      OrphanUids(ldap, metas);
      found, count := map[], 0;
      TakeNone({}, all);
      NothingCompared(Differences(ldap, metas));
      while todo != {}
        invariant todo <= all && count + |todo| == |all|
        invariant found == Part(Differences(ldap, metas), all - todo)
      {
        var uid :| uid in todo;
        TakeOne({}, all, todo, uid);
        OrphanLdapStep(ldap, metas, all - todo, uid);
        found := found[Key(OrphanLdap, uid) := Finding(Some(ldap[uid].dn), None, LdapOnly(ldap[uid]))];
        count := count + 1;
        todo := todo - {uid};
      }
      TakeNone({}, all);
    }

    /** Users that only the database has. */
    method AddOrphansDb(ldap: map<Uid, LdapUser>, before: map<Key, Finding>)
        returns (found: map<Key, Finding>, count: nat)
      requires before == Part(Differences(ldap, metas), ldap.Keys - metas.Keys)
      ensures found == Part(Differences(ldap, metas), (ldap.Keys - metas.Keys) + (metas.Keys - ldap.Keys))
      ensures count == |UidsOf(OrphanDb, ldap, metas)|
    {
      var todo := metas.Keys - ldap.Keys;
      ghost var all, base := todo, ldap.Keys - metas.Keys;
      OrphanUids(ldap, metas);
      found, count := before, 0;
      TakeNone(base, all);
      while todo != {}
        invariant todo <= all && count + |todo| == |all|
        invariant found == Part(Differences(ldap, metas), base + (all - todo))
      {
        var uid :| uid in todo;
        var meta := metas[uid];
        TakeOne(base, all, todo, uid);
        OrphanDbStep(ldap, metas, base + (all - todo), uid);
        found := found[Key(OrphanDb, uid) := Finding(Some(meta.ldapDn), Some(meta.id),
          DbOnly(meta.email, meta.displayName))];
        count := count + 1;
        todo := todo - {uid};
      }
      TakeNone(base, all);
    }

    /** Users that both have: attribute drift, MFA flag drift, or agreement. */
    method AddDrifts(ldap: map<Uid, LdapUser>, before: map<Key, Finding>)
        returns (found: map<Key, Finding>, attributeDrift: nat, mfaFlagDrift: nat, agree: set<Uid>)
      requires before == Part(Differences(ldap, metas), (ldap.Keys - metas.Keys) + (metas.Keys - ldap.Keys))
      ensures found == Differences(ldap, metas)
      ensures attributeDrift == |UidsOf(AttributeDrift, ldap, metas)|
              && mfaFlagDrift == |UidsOf(MfaFlagDrift, ldap, metas)|
      ensures agree == InSyncUids(ldap, metas)
    {
      var todo := ldap.Keys * metas.Keys;
      ghost var all, base := todo, (ldap.Keys - metas.Keys) + (metas.Keys - ldap.Keys);
      found, attributeDrift, mfaFlagDrift, agree := before, 0, 0, {};
      TakeNone(base, all);
      while todo != {}
        invariant todo <= all
        invariant found == Part(Differences(ldap, metas), base + (all - todo))
        invariant DriftCounts(ldap, metas, all - todo, attributeDrift, mfaFlagDrift, agree)
      {
        var uid :| uid in todo;
        ghost var done := all - todo;
        TakeOne(base, all, todo, uid);
        var attribute, mfa;
        found, attribute, mfa := CompareUser(ldap, found, uid, base + done);
        CountDrifts(ldap, metas, done, uid, attributeDrift, mfaFlagDrift, agree);
        attributeDrift := attributeDrift + if attribute then 1 else 0;
        mfaFlagDrift := mfaFlagDrift + if mfa then 1 else 0;
        if !attribute && !mfa {
          agree := agree + {uid};
        }
        todo := todo - {uid};
      }
      AllCompared(ldap, metas, base + (all - {}));
      AllCounted(ldap, metas, all - {}, attributeDrift, mfaFlagDrift, agree);
    }

    /** The body of the loop over common users. */
    method CompareUser(ldap: map<Uid, LdapUser>, before: map<Key, Finding>, uid: Uid, ghost done: set<Uid>)
        returns (found: map<Key, Finding>, attribute: bool, mfa: bool)
      requires uid in ldap && uid in metas && uid !in done
      requires before == Part(Differences(ldap, metas), done)
      ensures found == Part(Differences(ldap, metas), done + {uid})
      ensures attribute == AttributesDiffer(ldap[uid], metas[uid])
      ensures mfa == (ldap[uid].mfaEnabled != metas[uid].mfaEnabled)
    {
      var user, meta := ldap[uid], metas[uid];
      found := before;
      var drifts := [];
      if NonEmpty(user.mail) != NonEmpty(meta.email) {
        drifts := drifts + [FieldDrift(Email, user.mail, meta.email)];
      }
      if NonEmpty(user.displayName) != NonEmpty(meta.displayName) {
        drifts := drifts + [FieldDrift(DisplayName, user.displayName, meta.displayName)];
      }
      assert drifts == DriftList(user, meta);
      CommonStep(ldap, metas, done, uid);
      attribute := drifts != [];
      if attribute {
        found := found[Key(AttributeDrift, uid) := Finding(Some(user.dn), Some(meta.id), Drifts(drifts))];
      }
      mfa := user.mfaEnabled != meta.mfaEnabled;
      if mfa {
        found := found[Key(MfaFlagDrift, uid) := Finding(Some(user.dn), Some(meta.id),
          MfaFlags(user.mfaEnabled, meta.mfaEnabled))];
      }
    }

    /** Keep the first record of a current difference, close the others, add the missing ones. */
    method Reconcile(found: map<Key, Finding>, now: int) returns (added: nat, autoResolved: nat, superseded: nat)
      modifies this`rows
      ensures Mirrors(rows, found)
      ensures |rows| == |old(rows)| + added && AreNew(rows[|old(rows)|..], found)
      ensures var walk := WalkRows(old(rows), found, now);
              && rows[..|old(rows)|] == walk.rows
              && autoResolved == walk.autoResolved && superseded == walk.superseded
              && |walk.seen| + superseded + autoResolved == UnresolvedCount(old(rows))
              && |walk.seen| + added == |found|
    {
      var seen;
      seen, autoResolved, superseded := WalkUnresolved(found, now);
      WalkMirrors(old(rows), found, now);
      WalkPartitions(old(rows), found, now);
      assert |found| == |found.Keys|;
      added := AddMissing(found, seen);
    }

    method WalkUnresolved(found: map<Key, Finding>, now: int)
        returns (seen: set<Key>, autoResolved: nat, superseded: nat)
      modifies this`rows
      ensures Walk(rows, seen, autoResolved, superseded) == WalkRows(old(rows), found, now)
    {
      ghost var was := rows;
      seen, autoResolved, superseded := {}, 0, 0;
      for i := 0 to |rows|
        invariant |rows| == |was| && rows[i..] == was[i..]
        invariant Walk(rows[..i], seen, autoResolved, superseded) == WalkRows(was[..i], found, now)
      {
        var row := rows[i];
        assert row == rows[i..][0] == was[i];
        assert was[..i + 1][..i] == was[..i];
        if Unresolved(row) {
          if row.key in found && row.key !in seen {
            seen := seen + {row.key};
            row := row.(finding := row.finding.(diff := found[row.key].diff));
          } else if row.key in found {
            row := row.(resolvedAt := Some(now), action := Some(Superseded));
            superseded := superseded + 1;
          } else {
            row := row.(resolvedAt := Some(now), action := Some(AutoResolved));
            autoResolved := autoResolved + 1;
          }
        }
        ghost var before := rows;
        rows := rows[i := row];
        assert rows[..i + 1] == before[..i] + [row];
        assert rows[i + 1..] == before[i..][1..] == was[i..][1..] == was[i + 1..];
      }
      assert rows[..|rows|] == rows && was[..|was|] == was;
    }

    method AddMissing(found: map<Key, Finding>, seen: set<Key>) returns (added: nat)
      requires MirrorsPart(rows, found, seen)
      modifies this`rows
      ensures Mirrors(rows, found)
      ensures |rows| == |old(rows)| + added && rows[..|old(rows)|] == old(rows)
      ensures AreNew(rows[|old(rows)|..], found)
      ensures |seen| + added == |found.Keys|
    {
      var todo := found.Keys - seen;
      ghost var all := todo;
      added := 0;
      TakeNone(seen, all);
      NoneAdded(rows, found, seen);
      while todo != {}
        invariant todo <= all && added + |todo| == |all|
        invariant |rows| == |old(rows)| + added
        invariant AddedTo(old(rows), rows, found, seen + (all - todo))
      {
        var key :| key in todo;
        TakeOne(seen, all, todo, key);
        AddOne(old(rows), rows, found, seen + (all - todo), key);
        rows := rows + [Row(key, found[key], None, None)];
        added := added + 1;
        todo := todo - {key};
      }
      TakeNone(seen, all);
      AllAdded(found.Keys, seen);
    }

    method GetSyncStatus() returns (status: StatusReport)
      ensures status.totalDb == |metas| && status.inSync == StatusInSync(metas, rows)
      ensures status.discrepancies == UnresolvedCount(rows)
      ensures forall kind :: (if kind in status.byKind then status.byKind[kind] else 0) == CountKind(rows, kind)
    {
      var open: nat, byKind: map<Kind, nat> := 0, map[];
      for i := 0 to |rows|
        invariant open == UnresolvedCount(rows[..i])
        invariant forall kind :: (if kind in byKind then byKind[kind] else 0) == CountKind(rows[..i], kind)
      {
        assert rows[..i + 1][..i] == rows[..i];
        if Unresolved(rows[i]) {
          var kind := rows[i].key.kind;
          open := open + 1;
          byKind := byKind[kind := (if kind in byKind then byKind[kind] else 0) + 1];
        }
      }
      assert rows[..|rows|] == rows;
      status := StatusReport(|metas|, if |metas| >= open then |metas| - open else 0, open, byKind);
    }
  }

  // ---------------------------------------------------------------- steps of the comparison loops

  /** The differences of the users in `done`. */
  ghost function Part(found: map<Key, Finding>, done: set<Uid>): map<Key, Finding> {
    map key | key in found && key.uid in done :: found[key]
  }

  /** Stamping the agreeing users changes no difference. */
  lemma StampingChangesNothing(ldap: map<Uid, LdapUser>, metas: map<Uid, Meta>, agree: set<Uid>, at: int)
    ensures Differences(ldap, MarkInSync(metas, agree, at)) == Differences(ldap, metas)
  {
    var metas' := MarkInSync(metas, agree, at);
    assert forall kind, uid :: Differs(kind, uid, ldap, metas) <==> Differs(kind, uid, ldap, metas');
    forall key ensures key in Differences(ldap, metas) <==> key in Differences(ldap, metas') {
      DifferenceKeysMeaning(ldap, metas, key);
      DifferenceKeysMeaning(ldap, metas', key);
    }
    forall key | key in Differences(ldap, metas)
      ensures Differences(ldap, metas)[key] == Differences(ldap, metas')[key] {
      DifferenceKeysMeaning(ldap, metas, key);
    }
  }

  /** Idempotence: a second scan of the same directory and rows adds, supersedes and auto-resolves nothing. */
  lemma SecondScanIsQuiet(ldap: map<Uid, LdapUser>, metas: map<Uid, Meta>, rows: seq<Row>, at: int, now: int)
    requires Mirrors(rows, Differences(ldap, metas))
    ensures var found := Differences(ldap, MarkInSync(metas, InSyncUids(ldap, metas), at));
            var walk := WalkRows(rows, found, now);
            walk.rows == rows && walk.superseded == 0 && walk.autoResolved == 0 && walk.seen == found.Keys
  {
    StampingChangesNothing(ldap, metas, InSyncUids(ldap, metas), at);
    MirrorIsFixpoint(rows, Differences(ldap, metas), Differences(ldap, metas).Keys, now);
  }

  lemma AllCompared(ldap: map<Uid, LdapUser>, metas: map<Uid, Meta>, done: set<Uid>)
    requires ldap.Keys + metas.Keys <= done
    ensures Part(Differences(ldap, metas), done) == Differences(ldap, metas)
  {
    forall key | key in Differences(ldap, metas) ensures key.uid in done {
      DifferenceKeysMeaning(ldap, metas, key);
    }
  }

  lemma NothingCompared(found: map<Key, Finding>)
    ensures Part(found, {}) == map[]
  {
  }

  /** The keys that a user adds to the differences. */
  lemma PartOneMore(ldap: map<Uid, LdapUser>, metas: map<Uid, Meta>, done: set<Uid>, uid: Uid, more: map<Key, Finding>)
    requires uid !in done
    requires forall kind :: Key(kind, uid) in more <==> Differs(kind, uid, ldap, metas)
    requires forall key :: key in more ==>
             key.uid == uid && Differs(key.kind, uid, ldap, metas) && more[key] == FindingFor(key, ldap, metas)
    ensures Part(Differences(ldap, metas), done + {uid}) == Part(Differences(ldap, metas), done) + more
  {
    forall key ensures key in Differences(ldap, metas) <==> Differs(key.kind, key.uid, ldap, metas) {
      DifferenceKeysMeaning(ldap, metas, key);
    }
  }

  lemma CountOneMore(some: set<Uid>, done: set<Uid>, uid: Uid)
    requires uid !in done
    ensures |some * (done + {uid})| == |some * done| + if uid in some then 1 else 0
  {
    assert some * (done + {uid}) == some * done + if uid in some then {uid} else {};
  }

  /** The drift counters and the agreeing users, restricted to the users in `done`. */
  ghost predicate DriftCounts(ldap: map<Uid, LdapUser>, metas: map<Uid, Meta>, done: set<Uid>, attribute: nat,
      mfa: nat, agree: set<Uid>) {
    && attribute == |UidsOf(AttributeDrift, ldap, metas) * done|
    && mfa == |UidsOf(MfaFlagDrift, ldap, metas) * done|
    && agree == InSyncUids(ldap, metas) * done
  }

  lemma CountDrifts(ldap: map<Uid, LdapUser>, metas: map<Uid, Meta>, done: set<Uid>, uid: Uid, attribute: nat,
      mfa: nat, agree: set<Uid>)
    requires uid in ldap && uid in metas && uid !in done
    requires DriftCounts(ldap, metas, done, attribute, mfa, agree)
    ensures var attributeNow, mfaNow :=
            AttributesDiffer(ldap[uid], metas[uid]), ldap[uid].mfaEnabled != metas[uid].mfaEnabled;
            DriftCounts(ldap, metas, done + {uid}, attribute + (if attributeNow then 1 else 0),
                        mfa + (if mfaNow then 1 else 0),
                        if !attributeNow && !mfaNow then agree + {uid} else agree)
  {
    CountOneMore(UidsOf(AttributeDrift, ldap, metas), done, uid);
    CountOneMore(UidsOf(MfaFlagDrift, ldap, metas), done, uid);
  }

  lemma BothHave(kind: Kind, ldap: map<Uid, LdapUser>, metas: map<Uid, Meta>)
    requires kind == AttributeDrift || kind == MfaFlagDrift
    ensures UidsOf(kind, ldap, metas) * (ldap.Keys * metas.Keys) == UidsOf(kind, ldap, metas)
  {
  }

  lemma AllCounted(ldap: map<Uid, LdapUser>, metas: map<Uid, Meta>, done: set<Uid>, attribute: nat, mfa: nat,
      agree: set<Uid>)
    requires done == ldap.Keys * metas.Keys
    requires DriftCounts(ldap, metas, done, attribute, mfa, agree)
    ensures attribute == |UidsOf(AttributeDrift, ldap, metas)| && mfa == |UidsOf(MfaFlagDrift, ldap, metas)|
    ensures agree == InSyncUids(ldap, metas)
  {
    BothHave(AttributeDrift, ldap, metas);
    BothHave(MfaFlagDrift, ldap, metas);
    assert InSyncUids(ldap, metas) * done == InSyncUids(ldap, metas);
  }

  /** Set bookkeeping of `while todo != {}`: `base` was done before the loop, `all - todo` in it. */
  lemma TakeOne<T>(base: set<T>, all: set<T>, todo: set<T>, x: T)
    requires x in todo && todo <= all
    ensures all - (todo - {x}) == (all - todo) + {x}
    ensures base + (all - (todo - {x})) == (base + (all - todo)) + {x}
    ensures |todo - {x}| == |todo| - 1
  {
  }

  lemma TakeNone<T>(base: set<T>, all: set<T>)
    ensures all - all == {} && base + (all - all) == base
    ensures all - {} == all && base + (all - {}) == base + all
  {
  }

  lemma OrphanUids(ldap: map<Uid, LdapUser>, metas: map<Uid, Meta>)
    ensures UidsOf(OrphanLdap, ldap, metas) == ldap.Keys - metas.Keys
    ensures UidsOf(OrphanDb, ldap, metas) == metas.Keys - ldap.Keys
  {
  }

  lemma OrphanLdapStep(ldap: map<Uid, LdapUser>, metas: map<Uid, Meta>, done: set<Uid>, uid: Uid)
    requires uid in ldap && uid !in metas && uid !in done
    ensures Part(Differences(ldap, metas), done + {uid}) ==
            Part(Differences(ldap, metas), done)
            [Key(OrphanLdap, uid) := Finding(Some(ldap[uid].dn), None, LdapOnly(ldap[uid]))]
  {
    var more := map[Key(OrphanLdap, uid) := Finding(Some(ldap[uid].dn), None, LdapOnly(ldap[uid]))];
    PartOneMore(ldap, metas, done, uid, more);
  }

  lemma OrphanDbStep(ldap: map<Uid, LdapUser>, metas: map<Uid, Meta>, done: set<Uid>, uid: Uid)
    requires uid in metas && uid !in ldap && uid !in done
    ensures Part(Differences(ldap, metas), done + {uid}) ==
            Part(Differences(ldap, metas), done)
            [Key(OrphanDb, uid) := Finding(Some(metas[uid].ldapDn), Some(metas[uid].id),
              DbOnly(metas[uid].email, metas[uid].displayName))]
  {
    var more := map[Key(OrphanDb, uid) := Finding(Some(metas[uid].ldapDn), Some(metas[uid].id),
      DbOnly(metas[uid].email, metas[uid].displayName))];
    PartOneMore(ldap, metas, done, uid, more);
  }

  lemma CommonStep(ldap: map<Uid, LdapUser>, metas: map<Uid, Meta>, done: set<Uid>, uid: Uid)
    requires uid in ldap && uid in metas && uid !in done
    ensures var attribute := AttributesDiffer(ldap[uid], metas[uid]);
            var flag := ldap[uid].mfaEnabled != metas[uid].mfaEnabled;
            var before := Part(Differences(ldap, metas), done);
            var a := Finding(Some(ldap[uid].dn), Some(metas[uid].id), Drifts(DriftList(ldap[uid], metas[uid])));
            var m := Finding(Some(ldap[uid].dn), Some(metas[uid].id),
              MfaFlags(ldap[uid].mfaEnabled, metas[uid].mfaEnabled));
            var between := if attribute then before[Key(AttributeDrift, uid) := a] else before;
            Part(Differences(ldap, metas), done + {uid}) == if flag then between[Key(MfaFlagDrift, uid) := m]
              else between
  {
    var attribute := AttributesDiffer(ldap[uid], metas[uid]);
    var flag := ldap[uid].mfaEnabled != metas[uid].mfaEnabled;
    var a := Finding(Some(ldap[uid].dn), Some(metas[uid].id), Drifts(DriftList(ldap[uid], metas[uid])));
    var m := Finding(Some(ldap[uid].dn), Some(metas[uid].id), MfaFlags(ldap[uid].mfaEnabled, metas[uid].mfaEnabled));
    var none: map<Key, Finding> := map[];
    var more := if attribute then none[Key(AttributeDrift, uid) := a] else none;
    more := if flag then more[Key(MfaFlagDrift, uid) := m] else more;
    PartOneMore(ldap, metas, done, uid, more);
  }
}
