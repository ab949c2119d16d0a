/**
 * What the LDAP/DB scan compares and what counts as a difference (sync_service.py),
 * as values. `Differences` is the reference definition; SyncService computes it with loops.
 */
module SyncModel {
  import opened Common

  datatype Uid = Uid(name: string)

  /** An entry as the LDAP search returns it: every attribute is a list of values. */
  datatype Entry = Entry(dn: string, uid: seq<Uid>, mail: seq<string>, displayName: seq<string>, cn: seq<string>,
      mfaEnabled: seq<string>)

  /** The four values the scan keeps of an entry. */
  datatype LdapUser = LdapUser(dn: string, mail: Option<string>, displayName: Option<string>, mfaEnabled: bool)

  /** A row of mtl_core.user_metadata, without the columns no comparison reads. */
  datatype Meta = Meta(id: nat, ldapDn: string, email: Option<string>, displayName: Option<string>, mfaEnabled: bool,
      inSync: bool, syncedAt: Option<int>)

  datatype Kind = OrphanLdap | OrphanDb | AttributeDrift | MfaFlagDrift
  datatype Key = Key(kind: Kind, uid: Uid)

  datatype Field = Email | DisplayName
  datatype FieldDrift = FieldDrift(field: Field, ldap: Option<string>, db: Option<string>)
  datatype Diff =
    | LdapOnly(user: LdapUser)
    | DbOnly(email: Option<string>, displayName: Option<string>)
    | Drifts(drifts: seq<FieldDrift>)
    | MfaFlags(ldap: bool, db: bool)

  datatype Finding = Finding(ldapDn: Option<string>, dbId: Option<nat>, diff: Diff)

  datatype Resolution =
    | Superseded | AutoResolved | CreateLdap | CreateDb | SyncAttribute | DeleteDb | DeleteLdap | Ignore

  /** A row of mtl_core.sync_discrepancy. */
  datatype Row = Row(key: Key, finding: Finding, resolvedAt: Option<int>, action: Option<Resolution>)

  // ---------------------------------------------------------------- reading an entry

  function First(values: seq<string>): Option<string> {
    if values == [] then None else Some(values[0])
  }

  function UpperChar(c: char): char {
    if 'a' <= c <= 'z' then (c as int - 32) as char else c
  }

  /** `str((values or ["FALSE"])[0]).upper() == "TRUE"` */
  predicate IsTrue(values: seq<string>) {
    |values| > 0 && seq(|values[0]|, i requires 0 <= i < |values[0]| => UpperChar(values[0][i])) == "TRUE"
  }

  /** displayName falls back to cn only when it has no value at all. */
  function View(e: Entry): LdapUser {
    LdapUser(e.dn, First(e.mail), First(if e.displayName != [] then e.displayName else e.cn), IsTrue(e.mfaEnabled))
  }

  /** The `ldap_users` dictionary: entries without uid are skipped, a later entry with the same uid wins. */
  function BuildUsers(entries: seq<Entry>): map<Uid, LdapUser> {
    if entries == [] then map[]
    else
      var users, e := BuildUsers(entries[..|entries| - 1]), entries[|entries| - 1];
      if e.uid == [] then users else users[e.uid[0] := View(e)]
  }

  /** What a scan sees of a directory. */
  function ViewOf(directory: map<Uid, Entry>): map<Uid, LdapUser> {
    map u | u in directory :: View(directory[u])
  }

  /** A search result that lists each entry of the directory once gives the scan the whole view. */
  lemma {:induction false} EnumerationGivesView(entries: seq<Entry>, directory: map<Uid, Entry>)
    requires forall i :: 0 <= i < |entries| ==>
             |entries[i].uid| == 1 && entries[i].uid[0] in directory && directory[entries[i].uid[0]] == entries[i]
    ensures BuildUsers(entries).Keys == set i | 0 <= i < |entries| :: entries[i].uid[0]
    ensures forall u :: u in BuildUsers(entries) ==> u in directory && BuildUsers(entries)[u] == View(directory[u])
  {
    if entries != [] {
      var n := |entries| - 1;
      EnumerationGivesView(entries[..n], directory);
      assert (set i | 0 <= i < |entries| :: entries[i].uid[0]) ==
             (set i | 0 <= i < n :: entries[..n][i].uid[0]) + {entries[n].uid[0]};
    }
  }

  // ---------------------------------------------------------------- the differences of two stores

  predicate AttributesDiffer(user: LdapUser, meta: Meta) {
    NonEmpty(user.mail) != NonEmpty(meta.email) || NonEmpty(user.displayName) != NonEmpty(meta.displayName)
  }

  function DriftList(user: LdapUser, meta: Meta): seq<FieldDrift> {
    (if NonEmpty(user.mail) != NonEmpty(meta.email) then [FieldDrift(Email, user.mail, meta.email)] else [])
    + (if NonEmpty(user.displayName) != NonEmpty(meta.displayName)
      then [FieldDrift(DisplayName, user.displayName, meta.displayName)] else [])
  }

  /** Do the two stores disagree about `uid` in this way? */
  predicate Differs(kind: Kind, uid: Uid, ldap: map<Uid, LdapUser>, metas: map<Uid, Meta>) {
    match kind
    case OrphanLdap => uid in ldap && uid !in metas
    case OrphanDb => uid in metas && uid !in ldap
    case AttributeDrift => uid in ldap && uid in metas && AttributesDiffer(ldap[uid], metas[uid])
    case MfaFlagDrift => uid in ldap && uid in metas && ldap[uid].mfaEnabled != metas[uid].mfaEnabled
  }

  function FindingFor(key: Key, ldap: map<Uid, LdapUser>, metas: map<Uid, Meta>): Finding
    requires Differs(key.kind, key.uid, ldap, metas)
  {
    match key.kind
    case OrphanLdap => Finding(Some(ldap[key.uid].dn), None, LdapOnly(ldap[key.uid]))
    case OrphanDb =>
      var m := metas[key.uid];
      Finding(Some(m.ldapDn), Some(m.id), DbOnly(m.email, m.displayName))
    case AttributeDrift =>
      Finding(Some(ldap[key.uid].dn), Some(metas[key.uid].id), Drifts(DriftList(ldap[key.uid], metas[key.uid])))
    case MfaFlagDrift =>
      Finding(Some(ldap[key.uid].dn), Some(metas[key.uid].id),
        MfaFlags(ldap[key.uid].mfaEnabled, metas[key.uid].mfaEnabled))
  }

  function UidsOf(kind: Kind, ldap: map<Uid, LdapUser>, metas: map<Uid, Meta>): set<Uid> {
    set u | u in ldap.Keys + metas.Keys && Differs(kind, u, ldap, metas)
  }

  function InSyncUids(ldap: map<Uid, LdapUser>, metas: map<Uid, Meta>): set<Uid> {
    set u | u in ldap && u in metas && !AttributesDiffer(ldap[u], metas[u]) && ldap[u].mfaEnabled == metas[u].mfaEnabled
  }

  function KeysOf(kind: Kind, uids: set<Uid>): set<Key> {
    set u | u in uids :: Key(kind, u)
  }

  function DifferenceKeys(ldap: map<Uid, LdapUser>, metas: map<Uid, Meta>): set<Key> {
    KeysOf(OrphanLdap, UidsOf(OrphanLdap, ldap, metas)) + KeysOf(OrphanDb, UidsOf(OrphanDb, ldap, metas))
    + KeysOf(AttributeDrift, UidsOf(AttributeDrift, ldap, metas))
      + KeysOf(MfaFlagDrift, UidsOf(MfaFlagDrift, ldap, metas))
  }

  function Differences(ldap: map<Uid, LdapUser>, metas: map<Uid, Meta>): map<Key, Finding> {
    map key | key in DifferenceKeys(ldap, metas) :: FindingFor(key, ldap, metas)
  }

  lemma DifferenceKeysMeaning(ldap: map<Uid, LdapUser>, metas: map<Uid, Meta>, key: Key)
    ensures key in Differences(ldap, metas) <==> Differs(key.kind, key.uid, ldap, metas)
  {
    if Differs(key.kind, key.uid, ldap, metas) {
      assert key.uid in UidsOf(key.kind, ldap, metas);
      assert key in KeysOf(key.kind, UidsOf(key.kind, ldap, metas));
    }
  }

  // ---------------------------------------------------------------- reconciliation of the discrepancy table

  predicate Unresolved(row: Row) {
    row.resolvedAt == None
  }

  /** The loop over the unresolved records: what it has written, seen and counted after rows[..n]. */
  datatype Walk = Walk(rows: seq<Row>, seen: set<Key>, autoResolved: nat, superseded: nat)

  function WalkRows(rows: seq<Row>, found: map<Key, Finding>, now: int): (w: Walk)
    ensures |w.rows| == |rows|
  {
    if rows == [] then Walk([], {}, 0, 0)
    else
      var w, row := WalkRows(rows[..|rows| - 1], found, now), rows[|rows| - 1];
      if !Unresolved(row) then w.(rows := w.rows + [row])
      else if row.key in found && row.key !in w.seen then
        w.(rows := w.rows + [row.(finding := row.finding.(diff := found[row.key].diff))], seen := w.seen + {row.key})
      else if row.key in found then
        w.(rows := w.rows + [row.(resolvedAt := Some(now), action := Some(Superseded))], superseded := w.superseded + 1)
      else
        w.(rows := w.rows + [row.(resolvedAt := Some(now), action := Some(AutoResolved))],
           autoResolved := w.autoResolved + 1)
  }

  function UnresolvedCount(rows: seq<Row>): nat {
    if rows == [] then 0 else UnresolvedCount(rows[..|rows| - 1]) + if Unresolved(rows[|rows| - 1]) then 1 else 0
  }

  /** The unresolved records stand for keys of `keys`, one record each, with the current diff. */
  ghost predicate MirrorsPart(rows: seq<Row>, found: map<Key, Finding>, keys: set<Key>) {
    && keys <= found.Keys
    && (forall i :: 0 <= i < |rows| && Unresolved(rows[i]) ==>
         rows[i].key in keys && rows[i].finding.diff == found[rows[i].key].diff)
    && (forall i, j :: 0 <= i < j < |rows| && Unresolved(rows[i]) && Unresolved(rows[j]) ==> rows[i].key != rows[j].key)
    && (forall key :: key in keys ==> exists i :: 0 <= i < |rows| && Unresolved(rows[i]) && rows[i].key == key)
  }

  /** The unresolved records are in bijection with the current differences. */
  ghost predicate Mirrors(rows: seq<Row>, found: map<Key, Finding>) {
    MirrorsPart(rows, found, found.Keys)
  }

  lemma AppendResolved(rows: seq<Row>, found: map<Key, Finding>, keys: set<Key>, row: Row)
    requires MirrorsPart(rows, found, keys) && !Unresolved(row)
    ensures MirrorsPart(rows + [row], found, keys)
  {
    var after := rows + [row];
    forall key | key in keys ensures exists i :: 0 <= i < |after| && Unresolved(after[i]) && after[i].key == key {
      var i :| 0 <= i < |rows| && Unresolved(rows[i]) && rows[i].key == key;
      assert after[i] == rows[i];
    }
  }

  /** One record for a key that has none extends the mirror by that key. */
  lemma AppendCurrent(rows: seq<Row>, found: map<Key, Finding>, keys: set<Key>, row: Row)
    requires MirrorsPart(rows, found, keys) && Unresolved(row)
    requires row.key in found && row.key !in keys && row.finding.diff == found[row.key].diff
    ensures MirrorsPart(rows + [row], found, keys + {row.key})
  {
    var after := rows + [row];
    forall key | key in keys + {row.key}
      ensures exists i :: 0 <= i < |after| && Unresolved(after[i]) && after[i].key == key {
      if key in keys {
        var i :| 0 <= i < |rows| && Unresolved(rows[i]) && rows[i].key == key;
        assert after[i] == rows[i];
      } else {
        assert after[|rows|] == row;
      }
    }
  }

  /** The walk leaves one record for each key it saw, whatever duplicates and leftovers were there. */
  lemma {:induction false} WalkMirrors(rows: seq<Row>, found: map<Key, Finding>, now: int)
    ensures MirrorsPart(WalkRows(rows, found, now).rows, found, WalkRows(rows, found, now).seen)
  {
    if rows != [] {
      var w, row := WalkRows(rows[..|rows| - 1], found, now), rows[|rows| - 1];
      WalkMirrors(rows[..|rows| - 1], found, now);
      if Unresolved(row) && row.key in found && row.key !in w.seen {
        AppendCurrent(w.rows, found, w.seen, row.(finding := row.finding.(diff := found[row.key].diff)));
      } else {
        AppendResolved(w.rows, found, w.seen, WalkRows(rows, found, now).rows[|rows| - 1]);
      }
    }
  }

  /** Each unresolved record is kept, superseded or auto-resolved; resolved ones are left alone. */
  lemma {:induction false} WalkPartitions(rows: seq<Row>, found: map<Key, Finding>, now: int)
    ensures var w := WalkRows(rows, found, now);
            && |w.seen| + w.superseded + w.autoResolved == UnresolvedCount(rows)
            && (forall i :: 0 <= i < |rows| && !Unresolved(rows[i]) ==> w.rows[i] == rows[i])
            && (forall i :: 0 <= i < |rows| ==> w.rows[i].key == rows[i].key)
  {
    if rows != [] {
      WalkPartitions(rows[..|rows| - 1], found, now);
    }
  }

  lemma MirrorsInit(rows: seq<Row>, found: map<Key, Finding>, keys: set<Key>)
    requires MirrorsPart(rows, found, keys) && rows != []
    ensures var row := rows[|rows| - 1];
            MirrorsPart(rows[..|rows| - 1], found, if Unresolved(row) then keys - {row.key} else keys)
  {
    var n := |rows| - 1;
    var row, init := rows[n], rows[..n];
    var before := if Unresolved(row) then keys - {row.key} else keys;
    forall key | key in before ensures exists i :: 0 <= i < n && Unresolved(init[i]) && init[i].key == key {
      var i :| 0 <= i < |rows| && Unresolved(rows[i]) && rows[i].key == key;
      assert init[i] == rows[i];
    }
  }

  /** A table that mirrors the differences is a fixpoint: nothing is superseded, auto-resolved or missing. */
  lemma {:induction false} MirrorIsFixpoint(rows: seq<Row>, found: map<Key, Finding>, keys: set<Key>, now: int)
    requires MirrorsPart(rows, found, keys)
    ensures WalkRows(rows, found, now) == Walk(rows, keys, 0, 0)
  {
    if rows == [] {
      assert keys == {};
    } else {
      var n := |rows| - 1;
      var row, init := rows[n], rows[..n];
      var before := if Unresolved(row) then keys - {row.key} else keys;
      MirrorsInit(rows, found, keys);
      MirrorIsFixpoint(init, found, before, now);
      assert rows == init + [row];
    }
  }

  /** As many unresolved records as keys. */
  lemma MirrorCardinality(rows: seq<Row>, found: map<Key, Finding>, keys: set<Key>)
    requires MirrorsPart(rows, found, keys)
    ensures UnresolvedCount(rows) == |keys|
  {
    MirrorIsFixpoint(rows, found, keys, 0);
    WalkPartitions(rows, found, 0);
  }

  // ---------------------------------------------------------------- counting

  lemma {:induction false} KeysOfCardinality(kind: Kind, uids: set<Uid>)
    ensures |KeysOf(kind, uids)| == |uids|
  {
    if uids != {} {
      var u :| u in uids;
      KeysOfCardinality(kind, uids - {u});
      assert KeysOf(kind, uids) == KeysOf(kind, uids - {u}) + {Key(kind, u)};
    }
  }

  /** The differences, counted by kind. */
  lemma DifferenceCount(ldap: map<Uid, LdapUser>, metas: map<Uid, Meta>)
    ensures |Differences(ldap, metas)| ==
            |UidsOf(OrphanLdap, ldap, metas)| + |UidsOf(OrphanDb, ldap, metas)|
            + |UidsOf(AttributeDrift, ldap, metas)| + |UidsOf(MfaFlagDrift, ldap, metas)|
  {
    var a, b := KeysOf(OrphanLdap, UidsOf(OrphanLdap, ldap, metas)), KeysOf(OrphanDb, UidsOf(OrphanDb, ldap, metas));
    var c, d := KeysOf(AttributeDrift, UidsOf(AttributeDrift, ldap, metas)),
      KeysOf(MfaFlagDrift, UidsOf(MfaFlagDrift, ldap, metas));
    KeysOfCardinality(OrphanLdap, UidsOf(OrphanLdap, ldap, metas));
    KeysOfCardinality(OrphanDb, UidsOf(OrphanDb, ldap, metas));
    KeysOfCardinality(AttributeDrift, UidsOf(AttributeDrift, ldap, metas));
    KeysOfCardinality(MfaFlagDrift, UidsOf(MfaFlagDrift, ldap, metas));
    FourCardinality(a, b, c, d);
    assert Differences(ldap, metas).Keys == a + b + c + d;
    assert |Differences(ldap, metas)| == |Differences(ldap, metas).Keys|;
  }

  lemma FourCardinality(a: set<Key>, b: set<Key>, c: set<Key>, d: set<Key>)
    requires forall k :: k in a ==> k.kind == OrphanLdap
    requires forall k :: k in b ==> k.kind == OrphanDb
    requires forall k :: k in c ==> k.kind == AttributeDrift
    requires forall k :: k in d ==> k.kind == MfaFlagDrift
    ensures |a + b + c + d| == |a| + |b| + |c| + |d|
  {
    assert a !! b && (a + b) !! c && (a + b + c) !! d;
  }

  /** Every metadata row is an orphan, agrees, or drifts in one or both ways. */
  lemma PartitionOfMetas(ldap: map<Uid, LdapUser>, metas: map<Uid, Meta>)
    ensures |metas| == |UidsOf(OrphanDb, ldap, metas)| + |InSyncUids(ldap, metas)|
                       + |UidsOf(AttributeDrift, ldap, metas)| + |UidsOf(MfaFlagDrift, ldap, metas)|
                       - |UidsOf(AttributeDrift, ldap, metas) * UidsOf(MfaFlagDrift, ldap, metas)|
  {
    MetasSplit(ldap, metas);
    CountThree(metas.Keys, UidsOf(OrphanDb, ldap, metas), InSyncUids(ldap, metas),
               UidsOf(AttributeDrift, ldap, metas), UidsOf(MfaFlagDrift, ldap, metas));
    assert |metas| == |metas.Keys|;
  }

  lemma MetasSplit(ldap: map<Uid, LdapUser>, metas: map<Uid, Meta>)
    ensures metas.Keys == UidsOf(OrphanDb, ldap, metas) + InSyncUids(ldap, metas)
                          + (UidsOf(AttributeDrift, ldap, metas) + UidsOf(MfaFlagDrift, ldap, metas))
    ensures (UidsOf(OrphanDb, ldap, metas) + InSyncUids(ldap, metas))
            * (UidsOf(AttributeDrift, ldap, metas) + UidsOf(MfaFlagDrift, ldap, metas)) == {}
    ensures UidsOf(OrphanDb, ldap, metas) * InSyncUids(ldap, metas) == {}
  {
    forall u: Uid { Classify(u, ldap, metas); }
  }

  lemma Classify(u: Uid, ldap: map<Uid, LdapUser>, metas: map<Uid, Meta>)
    ensures u in UidsOf(OrphanDb, ldap, metas) <==> u in metas && u !in ldap
    ensures u in InSyncUids(ldap, metas) + (UidsOf(AttributeDrift, ldap, metas) + UidsOf(MfaFlagDrift, ldap, metas))
            <==> u in metas && u in ldap
    ensures u !in InSyncUids(ldap, metas) * (UidsOf(AttributeDrift, ldap, metas) + UidsOf(MfaFlagDrift, ldap, metas))
  {
  }

  lemma CountThree(all: set<Uid>, orphans: set<Uid>, agree: set<Uid>, attr: set<Uid>, mfa: set<Uid>)
    requires all == orphans + agree + (attr + mfa)
    requires (orphans + agree) * (attr + mfa) == {} && orphans * agree == {}
    ensures |all| == |orphans| + |agree| + |attr| + |mfa| - |attr * mfa|
  {
    UnionCardinality(orphans + agree, attr + mfa);
    UnionCardinality(orphans, agree);
    UnionCardinality(attr, mfa);
  }

  lemma UnionCardinality<T>(a: set<T>, b: set<T>)
    ensures |a + b| == |a| + |b| - |a * b|
  {
  }

  /** The status page's `max(0, total_db - len(unresolved))`. */
  function StatusInSync(metas: map<Uid, Meta>, rows: seq<Row>): nat {
    if |metas| >= UnresolvedCount(rows) then |metas| - UnresolvedCount(rows) else 0
  }

  /**
   * The status page never overstates health, and when the scan found agreeing users it is exact
   * if and only if there is no orphan_ldap and no user with both kinds of drift.
   */
  lemma StatusNeverOverstates(ldap: map<Uid, LdapUser>, metas: map<Uid, Meta>, rows: seq<Row>)
    requires Mirrors(rows, Differences(ldap, metas))
    ensures StatusInSync(metas, rows) <= |InSyncUids(ldap, metas)|
    ensures |InSyncUids(ldap, metas)| > 0 ==>
              (StatusInSync(metas, rows) == |InSyncUids(ldap, metas)| <==>
               UidsOf(OrphanLdap, ldap, metas) == {}
                 && UidsOf(AttributeDrift, ldap, metas) * UidsOf(MfaFlagDrift, ldap, metas) == {})
  {
    MirrorCardinality(rows, Differences(ldap, metas), Differences(ldap, metas).Keys);
    DifferenceCount(ldap, metas);
    PartitionOfMetas(ldap, metas);
  }
}
