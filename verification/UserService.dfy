/**
 * Operations that write both stores: user create, update and delete (ldap_user_service.py) and
 * resolve_discrepancy (sync_service.py), judged by what the next scan would find.
 */
module UserService {
  import opened Common
  import opened SyncModel

  datatype World = World(directory: map<Uid, Entry>, metas: map<Uid, Meta>)

  /** What an LDAP write does: succeed, be refused with a result code, or raise. */
  datatype LdapResult = Accepted | Refused | Raised

  datatype CreatePayload = CreatePayload(uid: Uid, cn: string, displayName: Option<string>, email: Option<string>)
  /** `others`: the request also names LDAP attributes that no comparison reads, such as sn or phone. */
  datatype UpdatePayload = UpdatePayload(cn: Option<string>, displayName: Option<string>, email: Option<string>,
      others: bool)

  datatype Answer = Done | ReadOnly | UidExists | UidExistsDb | UserNotFound | LdapRejected

  datatype ResolveAnswer =
    | Resolved | DiscrepancyNotFound | AlreadyResolved | InvalidAction | LdapEntryMissing | LdapFailed

  predicate Truthy(s: Option<string>) {
    s.Some? && s.value != ""
  }

  function UserDn(uid: Uid, people: string): string {
    "uid=" + uid.name + "," + people
  }

  // ---------------------------------------------------------------- create, update, delete

  function NewEntry(p: CreatePayload, people: string): Entry {
    Entry(UserDn(p.uid, people), [p.uid],
          if Truthy(p.email) then [p.email.value] else [],
          if Truthy(p.displayName) then [p.displayName.value] else [],
          [p.cn], ["FALSE"])
  }

  function NewMeta(p: CreatePayload, people: string, id: nat, now: int): Meta {
    Meta(id, UserDn(p.uid, people), p.email, Some(if Truthy(p.displayName) then p.displayName.value else p.cn), false,
      true, Some(now))
  }

  function CreateUser(w: World, p: CreatePayload, isMaster: bool, people: string, id: nat, now: int,
      ldap: LdapResult): (Answer, World) {
    if !isMaster then (ReadOnly, w)
    else if p.uid in w.directory then (UidExists, w)
    else if p.uid in w.metas then (UidExistsDb, w)
    else if ldap != Accepted then (LdapRejected, w)
    else (Done, World(w.directory[p.uid := NewEntry(p, people)], w.metas[p.uid := NewMeta(p, people, id, now)]))
  }

  /** The entry after the MODIFY_REPLACE of the attributes the payload names. */
  function Modified(e: Entry, p: UpdatePayload): Entry {
    e.(cn := if p.cn.Some? then [p.cn.value] else e.cn,
       displayName := if p.displayName.Some? then [p.displayName.value] else e.displayName,
       mail := if p.email.None? then e.mail else if p.email.value != "" then [p.email.value] else [])
  }

  function UpdatedMeta(w: World, uid: Uid, p: UpdatePayload, id: nat, now: int): Meta
    requires uid in w.directory
  {
    if uid !in w.metas then Meta(id, w.directory[uid].dn, p.email, p.displayName, false, true, Some(now))
    else
      w.metas[uid].(
        email := if p.email.Some? then p.email else w.metas[uid].email,
        displayName := if p.displayName.Some? then p.displayName else w.metas[uid].displayName,
        inSync := true, syncedAt := Some(now))
  }

  function UpdateUser(w: World, uid: Uid, p: UpdatePayload, isMaster: bool, id: nat, now: int,
      ldap: LdapResult): (Answer, World) {
    if !isMaster then (ReadOnly, w)
    else if uid !in w.directory then (UserNotFound, w)
    else if p != UpdatePayload(None, None, None, false) && ldap != Accepted then (LdapRejected, w)
    else (Done,
      World(w.directory[uid := Modified(w.directory[uid], p)], w.metas[uid := UpdatedMeta(w, uid, p, id, now)]))
  }

  function DeleteUser(w: World, uid: Uid, isMaster: bool, ldap: LdapResult): (Answer, World) {
    if !isMaster then (ReadOnly, w)
    else if uid !in w.directory then (UserNotFound, w)
    else if ldap != Accepted then (LdapRejected, w)
    else (Done, World(w.directory - {uid}, w.metas - {uid}))
  }

  /** A scan of this world would report nothing about `uid`. */
  ghost predicate Agrees(w: World, uid: Uid) {
    forall kind :: !Differs(kind, uid, ViewOf(w.directory), w.metas)
  }

  /** What a scan would report about any other user is the same in both worlds. */
  ghost predicate OthersUntouched(w: World, w': World, uid: Uid) {
    forall kind, v :: v != uid ==>
      (Differs(kind, v, ViewOf(w.directory), w.metas) <==> Differs(kind, v, ViewOf(w'.directory), w'.metas))
  }

  lemma SameStoresElsewhere(w: World, w': World, uid: Uid)
    requires forall v :: v != uid ==> (v in w.directory <==> v in w'.directory) && (v in w.metas <==> v in w'.metas)
    requires forall v :: v != uid && v in w.directory ==> w.directory[v] == w'.directory[v]
    requires forall v :: v != uid && v in w.metas ==>
               w.metas[v].email == w'.metas[v].email && w.metas[v].displayName == w'.metas[v].displayName
                 && w.metas[v].mfaEnabled == w'.metas[v].mfaEnabled
    ensures OthersUntouched(w, w', uid)
  {
  }

  /**
   * create_user leaves the two stores agreeing, through the displayName/cn fallback and the empty-to-None
   * normalisation.
   */
  lemma CreateAgrees(w: World, p: CreatePayload, isMaster: bool, people: string, id: nat, now: int, ldap: LdapResult)
    requires CreateUser(w, p, isMaster, people, id, now, ldap).0 == Done
    ensures var w' := CreateUser(w, p, isMaster, people, id, now, ldap).1;
            Agrees(w', p.uid) && OthersUntouched(w, w', p.uid) && p.uid in w'.directory && p.uid in w'.metas
  {
    var w' := CreateUser(w, p, isMaster, people, id, now, ldap).1;
    SameStoresElsewhere(w, w', p.uid);
    assert UpperChar('F') == 'F' && seq(5, i requires 0 <= i < 5 => UpperChar("FALSE"[i])) == "FALSE";
    assert !IsTrue(["FALSE"]);
  }

  /** delete_user leaves nothing for the scan to find. */
  lemma DeleteAgrees(w: World, uid: Uid, isMaster: bool, ldap: LdapResult)
    requires DeleteUser(w, uid, isMaster, ldap).0 == Done
    ensures var w' := DeleteUser(w, uid, isMaster, ldap).1;
            Agrees(w', uid) && OthersUntouched(w, w', uid) && uid !in w'.directory && uid !in w'.metas
  {
    SameStoresElsewhere(w, DeleteUser(w, uid, isMaster, ldap).1, uid);
  }

  /**
   * update_user on a user the stores agree about keeps the agreement, except in one case: the entry has
   * no displayName, the request gives none, and it changes the cn that stands in for it.
   */
  lemma UpdateAgreesIff(w: World, uid: Uid, p: UpdatePayload, isMaster: bool, id: nat, now: int, ldap: LdapResult)
    requires Agrees(w, uid) && UpdateUser(w, uid, p, isMaster, id, now, ldap).0 == Done
    ensures var w' := UpdateUser(w, uid, p, isMaster, id, now, ldap).1;
            OthersUntouched(w, w', uid)
            && (Agrees(w', uid) <==>
                !(w.directory[uid].displayName == [] && p.displayName == None && p.cn.Some?
                  && NonEmpty(p.cn) != NonEmpty(First(w.directory[uid].cn))))
  {
    var w' := UpdateUser(w, uid, p, isMaster, id, now, ldap).1;
    SameStoresElsewhere(w, w', uid);
    assert !Differs(OrphanLdap, uid, ViewOf(w.directory), w.metas);
    assert !Differs(AttributeDrift, uid, ViewOf(w.directory), w.metas);
    assert !Differs(MfaFlagDrift, uid, ViewOf(w.directory), w.metas);
    var e, e', m, m' := w.directory[uid], w'.directory[uid], w.metas[uid], w'.metas[uid];
    assert NonEmpty(View(e).mail) == NonEmpty(m.email) && NonEmpty(View(e).displayName) == NonEmpty(m.displayName);
    assert NonEmpty(View(e').mail) == NonEmpty(m'.email);
    assert Agrees(w', uid) <==> NonEmpty(View(e').displayName) == NonEmpty(m'.displayName) by {
      assert Differs(AttributeDrift, uid, ViewOf(w'.directory), w'.metas)
        <==> NonEmpty(View(e').displayName) != NonEmpty(m'.displayName);
      assert !Differs(OrphanLdap, uid, ViewOf(w'.directory), w'.metas)
        && !Differs(OrphanDb, uid, ViewOf(w'.directory), w'.metas);
      assert !Differs(MfaFlagDrift, uid, ViewOf(w'.directory), w'.metas);
    }
  }

  /** The exception happens: renaming the cn of an agreeing user without displayName makes the stores drift. */
  lemma RenamingCnDrifts()
    ensures var uid := Uid("ada");
            var w := World(map[uid := Entry("uid=ada", [uid], [], [], ["Ada"], ["FALSE"])],
                           map[uid := Meta(1, "uid=ada", None, Some("Ada"), false, true, None)]);
            var w' := UpdateUser(w, uid, UpdatePayload(Some("Ada L"), None, None, false), true, 2, 0, Accepted).1;
            Agrees(w, uid) && Differs(AttributeDrift, uid, ViewOf(w'.directory), w'.metas)
  {
    assert "FALSE"[0] == 'F';
    assert !IsTrue(["FALSE"]);
    assert |"Ada"| != |"Ada L"|;
  }

  /**
   * For a user that only LDAP has, update_user adds the missing row, but the stores agree afterwards
   * exactly when the request names every value the entry has and the entry's MFA flag is off.
   */
  lemma UpdateAdoptsIff(w: World, uid: Uid, p: UpdatePayload, isMaster: bool, id: nat, now: int, ldap: LdapResult)
    requires uid !in w.metas && UpdateUser(w, uid, p, isMaster, id, now, ldap).0 == Done
    ensures Agrees(UpdateUser(w, uid, p, isMaster, id, now, ldap).1, uid) <==>
            && (p.email.Some? || NonEmpty(First(w.directory[uid].mail)) == None)
            && (p.displayName.Some? || NonEmpty(View(Modified(w.directory[uid], p)).displayName) == None)
            && !View(w.directory[uid]).mfaEnabled
  {
    var w' := UpdateUser(w, uid, p, isMaster, id, now, ldap).1;
    var e', m' := w'.directory[uid], w'.metas[uid];
    assert !Differs(OrphanLdap, uid, ViewOf(w'.directory), w'.metas)
      && !Differs(OrphanDb, uid, ViewOf(w'.directory), w'.metas);
    assert Differs(AttributeDrift, uid, ViewOf(w'.directory), w'.metas) <==>
           NonEmpty(View(e').mail) != NonEmpty(m'.email) || NonEmpty(View(e').displayName) != NonEmpty(m'.displayName);
    assert Differs(MfaFlagDrift, uid, ViewOf(w'.directory), w'.metas) <==> IsTrue(e'.mfaEnabled);
  }

  /** The condition is needed: an adopting update that does not name the entry's mail leaves a drift. */
  lemma AdoptedUserDrifts()
    ensures var uid := Uid("ada");
            var w := World(map[uid := Entry("uid=ada", [uid], ["a@b"], [], [], ["FALSE"])], map[]);
            var (answer, w') := UpdateUser(w, uid, UpdatePayload(None, None, None, true), true, 2, 0, Accepted);
            && answer == Done
            && Differs(OrphanLdap, uid, ViewOf(w.directory), w.metas)
            && Differs(AttributeDrift, uid, ViewOf(w'.directory), w'.metas)
  {
    assert |"a@b"| != 0;
  }

  // ---------------------------------------------------------------- repair actions

  predicate Allowed(kind: Kind, action: Resolution) {
    match kind
    case OrphanLdap => action in {CreateDb, DeleteLdap, Ignore}
    case OrphanDb => action in {DeleteDb, Ignore}
    case AttributeDrift => action in {SyncAttribute, Ignore}
    case MfaFlagDrift => action in {SyncAttribute, Ignore}
  }

  /** `d.ldap_dn or entry["dn"]` */
  function RecordedDn(finding: Finding, e: Entry): string {
    OrElse(finding.ldapDn, e.dn)
  }

  /**
   * What the chosen action does to the stores; None when it raises. `ldap` is the fate of the LDAP call: a delete
   * that is refused is not noticed, and a search that is refused finds no entry.
   */
  function Effect(w: World, uid: Uid, finding: Finding, action: Resolution, id: nat, now: int,
      ldap: LdapResult): Option<World> {
    match action
    case DeleteDb => Some(w.(metas := map u | u in w.metas && finding.dbId != Some(w.metas[u].id) :: w.metas[u]))
    case DeleteLdap =>
      if !Truthy(finding.ldapDn) then Some(w)
      else if ldap == Raised then None
      else if ldap == Refused then Some(w)
      else
        Some(w.(directory := map u | u in w.directory && w.directory[u].dn != finding.ldapDn.value :: w.directory[u]))
    case CreateDb =>
      if ldap != Accepted || uid !in w.directory then None
      else if uid in w.metas then Some(w)
      else
        var e := w.directory[uid];
        Some(w.(metas := w.metas[uid := Meta(id, RecordedDn(finding, e), View(e).mail, View(e).displayName,
          View(e).mfaEnabled, true, Some(now))]))
    case SyncAttribute =>
      if ldap == Raised then None
      else if ldap == Refused || uid !in w.directory || finding.dbId == None then Some(w)
      else
        var v := View(w.directory[uid]);
        Some(w.(metas := map u | u in w.metas ::
          if Some(w.metas[u].id) == finding.dbId
          then w.metas[u].(email := v.mail, displayName := v.displayName, mfaEnabled := v.mfaEnabled, inSync := true,
            syncedAt := Some(now))
          else w.metas[u]))
    case _ => Some(w)
  }

  /** Ids and DNs name one row or entry each, and a record's id and DN never came from another user. */
  ghost predicate Honest(w: World, uid: Uid, finding: Finding) {
    && (forall u :: u in w.metas && finding.dbId == Some(w.metas[u].id) ==> u == uid)
    && (forall u :: u in w.directory && finding.ldapDn == Some(w.directory[u].dn) ==> u == uid)
  }

  /** The record still points at the row or entry that its action has to change. */
  predicate PointsHome(w: World, uid: Uid, finding: Finding, action: Resolution) {
    match action
    case DeleteDb => uid in w.metas && finding.dbId == Some(w.metas[uid].id)
    case SyncAttribute => uid in w.metas && finding.dbId == Some(w.metas[uid].id)
    case DeleteLdap => uid in w.directory && finding.ldapDn == Some(w.directory[uid].dn) && w.directory[uid].dn != ""
    case _ => true
  }

  /** The record points home, and the LDAP call of an action that does not notice a refusal is accepted. */
  predicate Repairs(w: World, uid: Uid, finding: Finding, action: Resolution, ldap: LdapResult) {
    PointsHome(w, uid, finding, action) && (action in {DeleteLdap, SyncAttribute} ==> ldap == Accepted)
  }

  /**
   * Repair then rescan. For a difference that is there, an allowed action other than ignore that does not raise
   * closes the record; it removes the difference from the next scan exactly when the record points home and
   * the LDAP call was accepted. Then the scan reports nothing about the user, so sync_attribute clears both
   * kinds of drift; otherwise the same difference is found again. Other users are untouched.
   */
  lemma RepairThenRescan(w: World, key: Key, finding: Finding, action: Resolution, id: nat, now: int, ldap: LdapResult)
    requires Differs(key.kind, key.uid, ViewOf(w.directory), w.metas)
    requires Allowed(key.kind, action) && action != Ignore && Honest(w, key.uid, finding)
    requires Effect(w, key.uid, finding, action, id, now, ldap).Some?
    ensures var w' := Effect(w, key.uid, finding, action, id, now, ldap).value;
            && OthersUntouched(w, w', key.uid)
            && (Repairs(w, key.uid, finding, action, ldap) <==> Agrees(w', key.uid))
            && (!Repairs(w, key.uid, finding, action, ldap) ==>
                  Differs(key.kind, key.uid, ViewOf(w'.directory), w'.metas))
  {
    RepairLeavesOthers(w, key, finding, action, id, now, ldap);
    if Repairs(w, key.uid, finding, action, ldap) {
      RepairAtHome(w, key, finding, action, id, now, ldap);
    } else {
      RepairMisses(w, key, finding, action, id, now, ldap);
      assert !Agrees(Effect(w, key.uid, finding, action, id, now, ldap).value, key.uid);
    }
  }

  /** An action raises, and closes nothing, only when its LDAP call does, or when create_db finds no entry. */
  lemma RepairRaisesIff(w: World, key: Key, finding: Finding, action: Resolution, id: nat, now: int, ldap: LdapResult)
    requires Differs(key.kind, key.uid, ViewOf(w.directory), w.metas) && Allowed(key.kind, action)
    ensures Effect(w, key.uid, finding, action, id, now, ldap) == None <==>
            match action
            case DeleteLdap => Truthy(finding.ldapDn) && ldap == Raised
            case SyncAttribute => ldap == Raised
            case CreateDb => ldap != Accepted
            case _ => false
  {
  }

  /** A refused delete_ldap on a record that points home: the record can be closed, and nothing has changed. */
  lemma RefusedDeleteRepairsNothing(w: World, key: Key, finding: Finding, id: nat, now: int)
    requires key.kind == OrphanLdap && Differs(key.kind, key.uid, ViewOf(w.directory), w.metas)
    requires PointsHome(w, key.uid, finding, DeleteLdap)
    ensures Effect(w, key.uid, finding, DeleteLdap, id, now, Refused) == Some(w) && !Agrees(w, key.uid)
  {
    assert Differs(OrphanLdap, key.uid, ViewOf(w.directory), w.metas);
  }

  lemma RepairLeavesOthers(
      w: World, key: Key, finding: Finding, action: Resolution, id: nat, now: int, ldap: LdapResult)
    requires Differs(key.kind, key.uid, ViewOf(w.directory), w.metas)
    requires Allowed(key.kind, action) && action != Ignore && Honest(w, key.uid, finding)
    requires Effect(w, key.uid, finding, action, id, now, ldap).Some?
    ensures OthersUntouched(w, Effect(w, key.uid, finding, action, id, now, ldap).value, key.uid)
  {
    SameStoresElsewhere(w, Effect(w, key.uid, finding, action, id, now, ldap).value, key.uid);
  }

  lemma RepairAtHome(w: World, key: Key, finding: Finding, action: Resolution, id: nat, now: int, ldap: LdapResult)
    requires Differs(key.kind, key.uid, ViewOf(w.directory), w.metas)
    requires Allowed(key.kind, action) && action != Ignore && Repairs(w, key.uid, finding, action, ldap)
    requires Effect(w, key.uid, finding, action, id, now, ldap).Some?
    ensures Agrees(Effect(w, key.uid, finding, action, id, now, ldap).value, key.uid)
  {
  }

  lemma RepairMisses(w: World, key: Key, finding: Finding, action: Resolution, id: nat, now: int, ldap: LdapResult)
    requires Differs(key.kind, key.uid, ViewOf(w.directory), w.metas)
    requires Allowed(key.kind, action) && action != Ignore && Honest(w, key.uid, finding)
    requires !Repairs(w, key.uid, finding, action, ldap) && Effect(w, key.uid, finding, action, id, now, ldap).Some?
    ensures var w' := Effect(w, key.uid, finding, action, id, now, ldap).value;
            Differs(key.kind, key.uid, ViewOf(w'.directory), w'.metas)
  {
  }

  /** A record that the current scan has just written points home. */
  lemma FreshRecordPointsHome(w: World, key: Key, action: Resolution)
    requires Differs(key.kind, key.uid, ViewOf(w.directory), w.metas) && Allowed(key.kind, action)
    requires key.uid in w.directory ==> w.directory[key.uid].dn != ""
    ensures PointsHome(w, key.uid, FindingFor(key, ViewOf(w.directory), w.metas), action)
  {
  }

  /**
   * A record that a later scan keeps has its diff refreshed but not its row id, so after the metadata
   * row was replaced, delete_db on the kept record closes it and deletes nothing.
   */
  lemma KeptRecordCanBeStale()
    ensures var uid := Uid("bob");
            var key := Key(OrphanDb, uid);
            var earlier := World(map[], map[uid := Meta(1, "uid=bob", None, None, false, true, None)]);
            var later := World(map[], map[uid := Meta(2, "uid=bob", None, None, false, true, None)]);
            var record := Row(key, FindingFor(key, ViewOf(earlier.directory), earlier.metas), None, None);
            var found := Differences(ViewOf(later.directory), later.metas);
            var kept := WalkRows([record], found, 0).rows[0];
            && Unresolved(kept)
            && Effect(later, uid, kept.finding, DeleteDb, 3, 0, Accepted) == Some(later)
  {
    var uid := Uid("bob");
    var key := Key(OrphanDb, uid);
    var later := World(map[], map[uid := Meta(2, "uid=bob", None, None, false, true, None)]);
    var earlier := World(map[], map[uid := Meta(1, "uid=bob", None, None, false, true, None)]);
    DifferenceKeysMeaning(ViewOf(later.directory), later.metas, key);
    var record := Row(key, FindingFor(key, ViewOf(earlier.directory), earlier.metas), None, None);
    var found := Differences(ViewOf(later.directory), later.metas);
    assert [record][..0] == [];
    assert WalkRows([], found, 0).seen == {};
    var kept := WalkRows([record], found, 0).rows[0];
    assert kept.finding.dbId == Some(1);
    assert later.metas[uid].id == 2;
    assert (map u | u in later.metas && kept.finding.dbId != Some(later.metas[u].id) :: later.metas[u]) == later.metas;
  }

  /** Ignoring a difference that stays: the next scan finds the table one record short and records it again. */
  lemma IgnoredIsFoundAgain(rows: seq<Row>, found: map<Key, Finding>, i: nat, at: int, now: int)
    requires Mirrors(rows, found) && i < |rows| && Unresolved(rows[i])
    ensures var walk := WalkRows(rows[i := rows[i].(resolvedAt := Some(at), action := Some(Ignore))], found, now);
            found.Keys - walk.seen == {rows[i].key} && walk.autoResolved == 0 && walk.superseded == 0
  {
    var after := rows[i := rows[i].(resolvedAt := Some(at), action := Some(Ignore))];
    var keys := found.Keys - {rows[i].key};
    forall key | key in keys ensures exists j :: 0 <= j < |after| && Unresolved(after[j]) && after[j].key == key {
      var j :| 0 <= j < |rows| && Unresolved(rows[j]) && rows[j].key == key;
      assert after[j] == rows[j];
    }
    forall j | 0 <= j < |after| && Unresolved(after[j]) ensures after[j].key in keys {
      assert j != i && after[j] == rows[j];
    }
    MirrorIsFixpoint(after, found, keys, now);
  }

  // ---------------------------------------------------------------- the two stores and the operations on them

  class UserStore {
    var directory: map<Uid, Entry>
    var metas: map<Uid, Meta>
    var rows: seq<Row>

    function Now(): World
      reads this
    {
      World(directory, metas)
    }

    method Create(p: CreatePayload, isMaster: bool, people: string, id: nat, now: int, ldap: LdapResult)
        returns (answer: Answer)
      modifies this`directory, this`metas
      ensures (answer, Now()) == CreateUser(old(Now()), p, isMaster, people, id, now, ldap)
    {
      if !isMaster {
        return ReadOnly;
      }
      if p.uid in directory {
        return UidExists;
      }
      if p.uid in metas {
        return UidExistsDb;
      }
      var e := Entry(UserDn(p.uid, people), [p.uid], [], [], [p.cn], ["FALSE"]);
      if Truthy(p.displayName) {
        e := e.(displayName := [p.displayName.value]);
      }
      if Truthy(p.email) {
        e := e.(mail := [p.email.value]);
      }
      if ldap != Accepted {
        return LdapRejected;
      }
      directory := directory[p.uid := e];
      metas := metas[p.uid := NewMeta(p, people, id, now)];
      answer := Done;
    }

    method Update(uid: Uid, p: UpdatePayload, isMaster: bool, id: nat, now: int, ldap: LdapResult)
        returns (answer: Answer)
      modifies this`directory, this`metas
      ensures (answer, Now()) == UpdateUser(old(Now()), uid, p, isMaster, id, now, ldap)
    {
      if !isMaster {
        return ReadOnly;
      }
      if uid !in directory {
        return UserNotFound;
      }
      var e := directory[uid];
      var changes := p.others;
      if p.cn.Some? {
        e, changes := e.(cn := [p.cn.value]), true;
      }
      if p.displayName.Some? {
        e, changes := e.(displayName := [p.displayName.value]), true;
      }
      if p.email.Some? {
        e, changes := e.(mail := if p.email.value != "" then [p.email.value] else []), true;
      }
      if changes && ldap != Accepted {
        return LdapRejected;
      }
      if uid !in metas {
        metas := metas[uid := Meta(id, e.dn, p.email, p.displayName, false, true, Some(now))];
      } else {
        var m := metas[uid];
        if p.email.Some? {
          m := m.(email := p.email);
        }
        if p.displayName.Some? {
          m := m.(displayName := p.displayName);
        }
        metas := metas[uid := m.(inSync := true, syncedAt := Some(now))];
      }
      directory := directory[uid := e];
      answer := Done;
    }

    method Delete(uid: Uid, isMaster: bool, ldap: LdapResult) returns (answer: Answer)
      modifies this`directory, this`metas
      ensures (answer, Now()) == DeleteUser(old(Now()), uid, isMaster, ldap)
    {
      if !isMaster {
        return ReadOnly;
      }
      if uid !in directory {
        return UserNotFound;
      }
      if ldap != Accepted {
        return LdapRejected;
      }
      directory := directory - {uid};
      metas := metas - {uid};
      answer := Done;
    }

    /** A record is closed when its action has not raised, repaired or not; a second call on it changes nothing. */
    method ResolveDiscrepancy(i: nat, action: Resolution, id: nat, now: int, ldap: LdapResult)
        returns (answer: ResolveAnswer)
      modifies this
      ensures answer == DiscrepancyNotFound <==> i >= |old(rows)|
      ensures answer != Resolved ==> Now() == old(Now()) && rows == old(rows)
      ensures i < |old(rows)| && !Unresolved(old(rows)[i]) ==> answer == AlreadyResolved
      ensures i < |old(rows)| && Unresolved(old(rows)[i]) ==>
              (answer == InvalidAction <==> !Allowed(old(rows)[i].key.kind, action))
      ensures i < |old(rows)| && Unresolved(old(rows)[i]) && Allowed(old(rows)[i].key.kind, action) ==>
              var r := old(rows)[i];
              && (answer == Resolved <==> Effect(old(Now()), r.key.uid, r.finding, action, id, now, ldap).Some?)
              && (answer != Resolved ==> answer == if ldap == Raised then LdapFailed else LdapEntryMissing)
      ensures answer == Resolved ==>
                && Allowed(old(rows)[i].key.kind, action)
                && Effect(old(Now()), old(rows)[i].key.uid, old(rows)[i].finding, action, id, now, ldap) == Some(Now())
                && rows == old(rows)[i := old(rows)[i].(resolvedAt := Some(now), action := Some(action))]
    {
      if i >= |rows| {
        return DiscrepancyNotFound;
      }
      var d := rows[i];
      if !Unresolved(d) {
        return AlreadyResolved;
      }
      if !Allowed(d.key.kind, action) {
        return InvalidAction;
      }
      var uid, dbId := d.key.uid, d.finding.dbId;
      match action {
        case DeleteDb =>
          metas := map u | u in metas && dbId != Some(metas[u].id) :: metas[u];
        case DeleteLdap =>
          if Truthy(d.finding.ldapDn) {
            if ldap == Raised {
              return LdapFailed;
            }
            if ldap == Accepted {
              directory := map u | u in directory && directory[u].dn != d.finding.ldapDn.value :: directory[u];
            }
          }
        case CreateDb =>
          if ldap == Raised {
            return LdapFailed;
          }
          if ldap == Refused || uid !in directory {
            return LdapEntryMissing;
          }
          if uid !in metas {
            var v := View(directory[uid]);
            metas := metas[uid := Meta(id, RecordedDn(d.finding, directory[uid]), v.mail, v.displayName, v.mfaEnabled,
              true, Some(now))];
          }
        case SyncAttribute =>
          if ldap == Raised {
            return LdapFailed;
          }
          if ldap == Accepted && uid in directory && dbId.Some? {
            var v := View(directory[uid]);
            metas := map u | u in metas ::
              if Some(metas[u].id) == dbId
              then metas[u].(email := v.mail, displayName := v.displayName, mfaEnabled := v.mfaEnabled,
                inSync := true, syncedAt := Some(now))
              else metas[u];
          }
        case _ =>
      }
      rows := rows[i := d.(resolvedAt := Some(now), action := Some(action))];
      answer := Resolved;
    }
  }
}
