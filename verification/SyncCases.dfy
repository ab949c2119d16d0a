/** The scan case by case: what it reads of an entry, what it records, and what becomes of each record. */
module SyncCases {
  import opened Common
  import opened SyncModel
  import opened SyncService

  // ---------------------------------------------------------------- reading the directory

  /** The flag is on exactly when the first value spells "true" in any mix of cases. */
  lemma FlagIsOnIff(e: Entry)
    ensures e.mfaEnabled == [] ==> !View(e).mfaEnabled
    ensures e.mfaEnabled != [] ==>
              var v := e.mfaEnabled[0];
              View(e).mfaEnabled <==> |v| == 4 && v[0] in "Tt" && v[1] in "Rr" && v[2] in "Uu" && v[3] in "Ee"
  {
    if e.mfaEnabled != [] {
      var v := e.mfaEnabled[0];
      var upper := seq(|v|, i requires 0 <= i < |v| => UpperChar(v[i]));
      forall i | 0 <= i < |v| ensures upper[i] == UpperChar(v[i]) {
      }
      SpellsTrue(upper);
    }
  }

  lemma SpellsTrue(v: string)
    ensures v == "TRUE" <==> |v| == 4 && v[0] == 'T' && v[1] == 'R' && v[2] == 'U' && v[3] == 'E'
  {
  }

  /** The first value of an attribute, and the empty text when it has none. */
  function Text(values: seq<string>): string {
    if |values| > 0 then values[0] else ""
  }

  function StoredText(value: Option<string>): string {
    match value
    case None => ""
    case Some(text) => text
  }

  /** The name of an entry: its displayName, and its cn when it has no displayName. */
  function NameOf(e: Entry): string {
    if |e.displayName| > 0 then e.displayName[0] else Text(e.cn)
  }

  lemma ViewMeaning(e: Entry)
    ensures View(e).dn == e.dn
    ensures View(e).mail == (if e.mail == [] then None else Some(e.mail[0]))
    ensures View(e).displayName ==
            if e.displayName != [] then Some(e.displayName[0]) else if e.cn != [] then Some(e.cn[0]) else None
  {
  }

  predicate Names(e: Entry, u: Uid) {
    |e.uid| > 0 && e.uid[0] == u
  }

  /** The scan knows the users that some entry names. */
  lemma {:induction false} KnownUsers(entries: seq<Entry>, u: Uid)
    ensures u in BuildUsers(entries) <==> exists i :: 0 <= i < |entries| && Names(entries[i], u)
  {
    if entries != [] {
      var n := |entries| - 1;
      var init := entries[..n];
      KnownUsers(init, u);
      assert forall i :: 0 <= i < n ==> init[i] == entries[i];
    }
  }

  /** What it keeps of a user is the view of the last entry that names it. */
  lemma {:induction false} LastEntryWins(entries: seq<Entry>, u: Uid, i: nat)
    requires i < |entries| && Names(entries[i], u)
    requires forall j :: i < j < |entries| ==> !Names(entries[j], u)
    ensures u in BuildUsers(entries) && BuildUsers(entries)[u] == View(entries[i])
  {
    var n := |entries| - 1;
    if i < n {
      var init := entries[..n];
      assert forall j :: 0 <= j < n ==> init[j] == entries[j];
      assert !Names(entries[n], u);
      LastEntryWins(init, u, i);
    }
  }

  // ---------------------------------------------------------------- what counts as a difference

  /** One user that both stores have, on the values: which records the scan makes, and what they hold. */
  lemma CommonUserCases(ldap: map<Uid, LdapUser>, metas: map<Uid, Meta>, uid: Uid, e: Entry)
    requires uid in ldap && uid in metas && ldap[uid] == View(e)
    ensures var m, found := metas[uid], Differences(ldap, metas);
            && Key(OrphanLdap, uid) !in found && Key(OrphanDb, uid) !in found
            && (Key(AttributeDrift, uid) in found <==>
                Text(e.mail) != StoredText(m.email) || NameOf(e) != StoredText(m.displayName))
            && (Key(MfaFlagDrift, uid) in found <==> View(e).mfaEnabled != m.mfaEnabled)
            && (uid in InSyncUids(ldap, metas) <==>
                Text(e.mail) == StoredText(m.email) && NameOf(e) == StoredText(m.displayName)
                && View(e).mfaEnabled == m.mfaEnabled)
  {
    forall kind: Kind ensures Key(kind, uid) in Differences(ldap, metas) <==> Differs(kind, uid, ldap, metas) {
      DifferenceKeysMeaning(ldap, metas, Key(kind, uid));
    }
    assert NonEmpty(View(e).mail) == NonEmpty(metas[uid].email) <==> Text(e.mail) == StoredText(metas[uid].email);
    assert NonEmpty(View(e).displayName) == NonEmpty(metas[uid].displayName) <==>
      NameOf(e) == StoredText(metas[uid].displayName);
  }

  /** What the records of such a user hold: the DN of the entry, the id of the row, and the values that differ. */
  lemma CommonUserRecords(ldap: map<Uid, LdapUser>, metas: map<Uid, Meta>, uid: Uid, e: Entry)
    requires uid in ldap && uid in metas && ldap[uid] == View(e)
    ensures var m, found := metas[uid], Differences(ldap, metas);
            var mails := [FieldDrift(Email, if e.mail == [] then None else Some(e.mail[0]), m.email)];
            var names := [FieldDrift(DisplayName, View(e).displayName, m.displayName)];
            && (Key(AttributeDrift, uid) in found ==>
                found[Key(AttributeDrift, uid)] == Finding(Some(e.dn), Some(m.id), Drifts(
                  (if Text(e.mail) != StoredText(m.email) then mails else [])
                  + (if NameOf(e) != StoredText(m.displayName) then names else []))))
            && (Key(MfaFlagDrift, uid) in found ==>
                found[Key(MfaFlagDrift, uid)] ==
                  Finding(Some(e.dn), Some(m.id), MfaFlags(View(e).mfaEnabled, m.mfaEnabled)))
  {
    forall kind: Kind ensures Key(kind, uid) in Differences(ldap, metas) <==> Differs(kind, uid, ldap, metas) {
      DifferenceKeysMeaning(ldap, metas, Key(kind, uid));
    }
    assert NonEmpty(View(e).mail) == NonEmpty(metas[uid].email) <==> Text(e.mail) == StoredText(metas[uid].email);
    assert NonEmpty(View(e).displayName) == NonEmpty(metas[uid].displayName) <==>
      NameOf(e) == StoredText(metas[uid].displayName);
  }

  /** A user that one store alone has makes one record, and a user of neither makes none. */
  lemma OrphanCases(ldap: map<Uid, LdapUser>, metas: map<Uid, Meta>, uid: Uid)
    ensures var found := Differences(ldap, metas);
            && (Key(OrphanLdap, uid) in found <==> uid in ldap && uid !in metas)
            && (Key(OrphanDb, uid) in found <==> uid in metas && uid !in ldap)
            && (uid !in ldap || uid !in metas ==>
                Key(AttributeDrift, uid) !in found && Key(MfaFlagDrift, uid) !in found
                && uid !in InSyncUids(ldap, metas))
            && (Key(OrphanLdap, uid) in found ==>
                found[Key(OrphanLdap, uid)] == Finding(Some(ldap[uid].dn), None, LdapOnly(ldap[uid])))
            && (Key(OrphanDb, uid) in found ==>
                found[Key(OrphanDb, uid)] ==
                  Finding(Some(metas[uid].ldapDn), Some(metas[uid].id),
                    DbOnly(metas[uid].email, metas[uid].displayName)))
  {
    forall kind: Kind ensures Key(kind, uid) in Differences(ldap, metas) <==> Differs(kind, uid, ldap, metas) {
      DifferenceKeysMeaning(ldap, metas, Key(kind, uid));
    }
  }

  /** The users counted under a kind are those with a record of that kind. */
  lemma CountedUsers(kind: Kind, ldap: map<Uid, LdapUser>, metas: map<Uid, Meta>, uid: Uid)
    ensures uid in UidsOf(kind, ldap, metas) <==> Key(kind, uid) in Differences(ldap, metas)
  {
    DifferenceKeysMeaning(ldap, metas, Key(kind, uid));
  }

  /** A user whose flag is stored and reads "TRUE" or "true", with equal mail and name, is in sync and has no record. */
  lemma EnabledUserAgrees(ldap: map<Uid, LdapUser>, metas: map<Uid, Meta>, uid: Uid, e: Entry, kind: Kind)
    requires uid in ldap && uid in metas && ldap[uid] == View(e)
    requires e.mfaEnabled in {["TRUE"], ["true"], ["True"]} && metas[uid].mfaEnabled
    requires Text(e.mail) == StoredText(metas[uid].email) && NameOf(e) == StoredText(metas[uid].displayName)
    ensures uid in InSyncUids(ldap, metas) && Key(kind, uid) !in Differences(ldap, metas)
  {
    FlagIsOnIff(e);
    CommonUserCases(ldap, metas, uid, e);
  }

  /** The metadata table after a scan: the agreeing users are stamped, and nothing else is touched. */
  lemma StampedColumns(metas: map<Uid, Meta>, agree: set<Uid>, now: int, u: Uid)
    ensures MarkInSync(metas, agree, now).Keys == metas.Keys
    ensures u in metas ==>
              var m, m' := metas[u], MarkInSync(metas, agree, now)[u];
              && m'.id == m.id && m'.ldapDn == m.ldapDn && m'.email == m.email && m'.displayName == m.displayName
              && m'.mfaEnabled == m.mfaEnabled
              && (u in agree ==> m'.inSync && m'.syncedAt == Some(now))
              && (u !in agree ==> m'.inSync == m.inSync && m'.syncedAt == m.syncedAt)
  {
  }

  // ---------------------------------------------------------------- what becomes of each record

  /** An open record of the same difference stands before record i. */
  predicate HasEarlier(rows: seq<Row>, i: nat)
    requires i < |rows|
  {
    exists j :: 0 <= j < i && rows[j].resolvedAt == None && rows[j].key == rows[i].key
  }

  lemma {:induction false} SeenMeaning(rows: seq<Row>, found: map<Key, Finding>, now: int, key: Key)
    ensures key in WalkRows(rows, found, now).seen <==>
            key in found && exists j :: 0 <= j < |rows| && rows[j].resolvedAt == None && rows[j].key == key
  {
    if rows != [] {
      var n := |rows| - 1;
      SeenMeaning(rows[..n], found, now, key);
      assert rows == rows[..n] + [rows[n]];
      if key in WalkRows(rows[..n], found, now).seen {
        var j :| 0 <= j < n && rows[..n][j].resolvedAt == None && rows[..n][j].key == key;
        assert rows[j].key == key;
      }
    }
  }

  /**
   * The first open record of a difference that is still there stays open with the new values; a later one is closed
   * as superseded, one whose difference has gone as auto-resolved, and a closed one is left alone.
   */
  lemma {:induction false} RecordFate(rows: seq<Row>, found: map<Key, Finding>, now: int, i: nat)
    requires i < |rows|
    ensures var r, after := rows[i], WalkRows(rows, found, now).rows[i];
            && after.key == r.key && after.finding.ldapDn == r.finding.ldapDn && after.finding.dbId == r.finding.dbId
            && (r.resolvedAt != None ==> after == r)
            && (r.resolvedAt == None && r.key !in found ==>
                  after.resolvedAt == Some(now) && after.action == Some(AutoResolved)
                    && after.finding.diff == r.finding.diff)
            && (r.resolvedAt == None && r.key in found && HasEarlier(rows, i) ==>
                  after.resolvedAt == Some(now) && after.action == Some(Superseded)
                    && after.finding.diff == r.finding.diff)
            && (r.resolvedAt == None && r.key in found && !HasEarlier(rows, i) ==>
                  after.resolvedAt == None && after.action == r.action && after.finding.diff == found[r.key].diff)
  {
    var n := |rows| - 1;
    assert rows == rows[..n] + [rows[n]];
    if i == n {
      SeenMeaning(rows[..n], found, now, rows[n].key);
      assert forall j :: 0 <= j < n ==> rows[..n][j] == rows[j];
    } else {
      RecordFate(rows[..n], found, now, i);
      assert forall j :: 0 <= j <= i ==> rows[..n][j] == rows[j];
    }
  }

  ghost function Gone(rows: seq<Row>, found: map<Key, Finding>): set<nat> {
    set i: nat | i < |rows| && rows[i].resolvedAt == None && rows[i].key !in found
  }

  ghost function Repeated(rows: seq<Row>, found: map<Key, Finding>): set<nat> {
    set i: nat | i < |rows| && rows[i].resolvedAt == None && rows[i].key in found && HasEarlier(rows, i)
  }

  ghost function Open(rows: seq<Row>): set<nat> {
    set i: nat | i < |rows| && rows[i].resolvedAt == None
  }

  ghost function OpenOf(rows: seq<Row>, kind: Kind): set<nat> {
    set i: nat | i < |rows| && rows[i].resolvedAt == None && rows[i].key.kind == kind
  }

  lemma OneMore(before: set<nat>, after: set<nat>, n: nat, more: bool)
    requires n !in before && after == before + if more then {n} else {}
    ensures |after| == |before| + if more then 1 else 0
  {
  }

  lemma GoneGrows(rows: seq<Row>, found: map<Key, Finding>)
    requires rows != []
    ensures var n, r := |rows| - 1, rows[|rows| - 1];
            |Gone(rows, found)| ==
            |Gone(rows[..n], found)| + if r.resolvedAt == None && r.key !in found then 1 else 0
  {
    var n := |rows| - 1;
    OneMore(Gone(rows[..n], found), Gone(rows, found), n, rows[n].resolvedAt == None && rows[n].key !in found);
  }

  lemma EarlierInPart(rows: seq<Row>, n: nat, i: nat)
    requires i < n <= |rows|
    ensures rows[..n][i] == rows[i] && (HasEarlier(rows[..n], i) <==> HasEarlier(rows, i))
  {
    assert forall j :: 0 <= j <= i ==> rows[..n][j] == rows[j];
  }

  lemma RepeatedGrows(rows: seq<Row>, found: map<Key, Finding>)
    requires rows != []
    ensures var n, r := |rows| - 1, rows[|rows| - 1];
            |Repeated(rows, found)| == |Repeated(rows[..n], found)| +
            if r.resolvedAt == None && r.key in found && HasEarlier(rows, n) then 1 else 0
  {
    var n := |rows| - 1;
    var init := rows[..n];
    var more := rows[n].resolvedAt == None && rows[n].key in found && HasEarlier(rows, n);
    forall i: nat ensures i in Repeated(rows, found) <==> i in Repeated(init, found) || (more && i == n) {
      if i < n {
        EarlierInPart(rows, n, i);
      }
    }
    OneMore(Repeated(init, found), Repeated(rows, found), n, more);
  }

  lemma OpenGrows(rows: seq<Row>)
    requires rows != []
    ensures |Open(rows)| == |Open(rows[..|rows| - 1])| + if rows[|rows| - 1].resolvedAt == None then 1 else 0
  {
    var n := |rows| - 1;
    var init, more := rows[..n], rows[n].resolvedAt == None;
    forall i: nat ensures i in Open(rows) <==> i in Open(init) || (more && i == n) {
      assert i < n ==> init[i] == rows[i];
    }
    OneMore(Open(init), Open(rows), n, more);
  }

  lemma OpenOfGrows(rows: seq<Row>, kind: Kind)
    requires rows != []
    ensures var r := rows[|rows| - 1];
            |OpenOf(rows, kind)| ==
            |OpenOf(rows[..|rows| - 1], kind)| + if r.resolvedAt == None && r.key.kind == kind then 1 else 0
  {
    var n := |rows| - 1;
    var init, more := rows[..n], rows[n].resolvedAt == None && rows[n].key.kind == kind;
    forall i: nat ensures i in OpenOf(rows, kind) <==> i in OpenOf(init, kind) || (more && i == n) {
      assert i < n ==> init[i] == rows[i];
    }
    OneMore(OpenOf(init, kind), OpenOf(rows, kind), n, more);
  }

  /** The two counters of the walk count the records that it closes in either way. */
  lemma {:induction false} ClosedAreCounted(rows: seq<Row>, found: map<Key, Finding>, now: int)
    ensures WalkRows(rows, found, now).autoResolved == |Gone(rows, found)|
    ensures WalkRows(rows, found, now).superseded == |Repeated(rows, found)|
  {
    if rows != [] {
      var n := |rows| - 1;
      ClosedAreCounted(rows[..n], found, now);
      GoneGrows(rows, found);
      RepeatedGrows(rows, found);
      SeenMeaning(rows[..n], found, now, rows[n].key);
      assert forall j :: 0 <= j < n ==> rows[..n][j] == rows[j];
    }
  }

  /** The status page counts the open records, in all and by kind. */
  lemma {:induction false} OpenAreCounted(rows: seq<Row>, kind: Kind)
    ensures UnresolvedCount(rows) == |Open(rows)| && CountKind(rows, kind) == |OpenOf(rows, kind)|
  {
    if rows != [] {
      OpenAreCounted(rows[..|rows| - 1], kind);
      OpenGrows(rows);
      OpenOfGrows(rows, kind);
    }
  }

  /** So it shows as in sync what is left of the metadata rows when one is taken off for each open record. */
  lemma StatusShown(metas: map<Uid, Meta>, rows: seq<Row>)
    ensures var open, shown := |Open(rows)|, StatusInSync(metas, rows);
            if open <= |metas| then shown + open == |metas| else shown == 0
  {
    OpenAreCounted(rows, OrphanDb);
  }

  /** A scan leaves one open record for each difference, and its row number is fixed by the key. */
  lemma OneOpenRecordEach(rows: seq<Row>, found: map<Key, Finding>, key: Key)
    requires Mirrors(rows, found)
    ensures key in found <==> exists i :: 0 <= i < |rows| && rows[i].resolvedAt == None && rows[i].key == key
    ensures forall i, j :: (0 <= i < j < |rows| && rows[i].key == key && rows[j].key == key) ==>
              rows[i].resolvedAt != None || rows[j].resolvedAt != None
    ensures forall i :: 0 <= i < |rows| && rows[i].key == key && rows[i].resolvedAt == None ==>
              key in found && rows[i].finding.diff == found[key].diff
  {
    if key in found {
      var i :| 0 <= i < |rows| && Unresolved(rows[i]) && rows[i].key == key;
    }
  }
}
