/** The user operations and the repair actions case by case, on the columns they read and write. */
module UserCases {
  import opened Common
  import opened SyncModel
  import opened UserService

  // ---------------------------------------------------------------- create, update, delete

  /** The four refusals of create_user, in this order, and none of them writes. */
  lemma CreateRefusals(w: World, p: CreatePayload, isMaster: bool, people: string, id: nat, now: int, ldap: LdapResult)
    ensures var (answer, w') := CreateUser(w, p, isMaster, people, id, now, ldap);
            && (answer == ReadOnly <==> !isMaster)
            && (answer == UidExists <==> isMaster && p.uid in w.directory)
            && (answer == UidExistsDb <==> isMaster && p.uid !in w.directory && p.uid in w.metas)
            && (answer == LdapRejected <==>
                isMaster && p.uid !in w.directory && p.uid !in w.metas && ldap in {Refused, Raised})
            && (answer == Done <==> isMaster && p.uid !in w.directory && p.uid !in w.metas && ldap == Accepted)
            && (answer != Done ==> w' == w)
  {
  }

  /** What create_user writes: the entry with the values given, and the row that stands for it. */
  lemma CreatedColumns(w: World, p: CreatePayload, people: string, id: nat, now: int)
    requires p.uid !in w.directory && p.uid !in w.metas
    ensures var w' := CreateUser(w, p, true, people, id, now, Accepted).1;
            var given, mail := p.displayName.Some? && p.displayName.value != "", p.email.Some? && p.email.value != "";
            && w'.directory.Keys == w.directory.Keys + {p.uid} && w'.metas.Keys == w.metas.Keys + {p.uid}
            && (forall u :: u in w.directory ==> w'.directory[u] == w.directory[u])
            && (forall u :: u in w.metas ==> w'.metas[u] == w.metas[u])
            && var e, m := w'.directory[p.uid], w'.metas[p.uid];
            && e.dn == "uid=" + p.uid.name + "," + people && m.ldapDn == "uid=" + p.uid.name + "," + people
            && e.uid == [p.uid] && e.cn == [p.cn] && e.mfaEnabled == ["FALSE"]
            && e.mail == (if mail then [p.email.value] else [])
            && e.displayName == (if given then [p.displayName.value] else [])
            && m.id == id && m.email == p.email && !m.mfaEnabled && m.inSync && m.syncedAt == Some(now)
            && m.displayName == (if given then p.displayName else Some(p.cn))
  {
  }

  lemma UpdateRefusals(w: World, uid: Uid, p: UpdatePayload, isMaster: bool, id: nat, now: int, ldap: LdapResult)
    ensures var (answer, w') := UpdateUser(w, uid, p, isMaster, id, now, ldap);
            var changes := p.cn.Some? || p.displayName.Some? || p.email.Some? || p.others;
            && (answer == ReadOnly <==> !isMaster)
            && (answer == UserNotFound <==> isMaster && uid !in w.directory)
            && (answer == LdapRejected <==> isMaster && uid in w.directory && changes && ldap in {Refused, Raised})
            && (answer == Done <==> isMaster && uid in w.directory && (!changes || ldap == Accepted))
            && (answer != Done ==> w' == w)
  {
  }

  /** What update_user writes: the attributes and columns the request names, and the row when there was none. */
  lemma UpdatedColumns(w: World, uid: Uid, p: UpdatePayload, id: nat, now: int)
    requires uid in w.directory
    ensures var w' := UpdateUser(w, uid, p, true, id, now, Accepted).1;
            && w'.directory.Keys == w.directory.Keys && w'.metas.Keys == w.metas.Keys + {uid}
            && (forall u :: u in w.directory && u != uid ==> w'.directory[u] == w.directory[u])
            && (forall u :: u in w.metas && u != uid ==> w'.metas[u] == w.metas[u])
            && var e, e', m' := w.directory[uid], w'.directory[uid], w'.metas[uid];
            && e'.dn == e.dn && e'.uid == e.uid && e'.mfaEnabled == e.mfaEnabled
            && (p.cn == None ==> e'.cn == e.cn) && (p.cn.Some? ==> e'.cn == [p.cn.value])
            && (p.displayName == None ==> e'.displayName == e.displayName)
            && (p.displayName.Some? ==> e'.displayName == [p.displayName.value])
            && (p.email == None ==> e'.mail == e.mail) && (p.email == Some("") ==> e'.mail == [])
            && (p.email.Some? && p.email.value != "" ==> e'.mail == [p.email.value])
            && m'.inSync && m'.syncedAt == Some(now)
            && (uid !in w.metas ==>
                  m'.id == id && m'.ldapDn == e.dn && m'.email == p.email && m'.displayName == p.displayName
                    && !m'.mfaEnabled)
            && (uid in w.metas ==>
                  && m'.id == w.metas[uid].id && m'.ldapDn == w.metas[uid].ldapDn
                  && m'.mfaEnabled == w.metas[uid].mfaEnabled
                  && m'.email == (if p.email == None then w.metas[uid].email else p.email)
                  && m'.displayName == (if p.displayName == None then w.metas[uid].displayName else p.displayName))
  {
  }

  lemma DeleteCases(w: World, uid: Uid, isMaster: bool, ldap: LdapResult)
    ensures var (answer, w') := DeleteUser(w, uid, isMaster, ldap);
            && (answer == ReadOnly <==> !isMaster)
            && (answer == UserNotFound <==> isMaster && uid !in w.directory)
            && (answer == LdapRejected <==> isMaster && uid in w.directory && ldap in {Refused, Raised})
            && (answer == Done <==> isMaster && uid in w.directory && ldap == Accepted)
            && (answer != Done ==> w' == w)
            && (answer == Done ==>
                  && w'.directory.Keys == w.directory.Keys - {uid} && w'.metas.Keys == w.metas.Keys - {uid}
                  && (forall u :: u in w'.directory ==> w'.directory[u] == w.directory[u])
                  && (forall u :: u in w'.metas ==> w'.metas[u] == w.metas[u]))
  {
  }

  // ---------------------------------------------------------------- repair actions

  /** Which action an open record admits, by its kind; the two marks that only a scan sets are no actions. */
  lemma AllowedTable(kind: Kind, action: Resolution)
    ensures Allowed(kind, action) <==>
            || action == Ignore
            || (kind == OrphanLdap && action == CreateDb)
            || (kind == OrphanLdap && action == DeleteLdap)
            || (kind == OrphanDb && action == DeleteDb)
            || (kind == AttributeDrift && action == SyncAttribute)
            || (kind == MfaFlagDrift && action == SyncAttribute)
  {
  }

  /** delete_db removes the rows with the recorded id and nothing else; ignore changes nothing. */
  lemma DeleteDbEffect(w: World, uid: Uid, finding: Finding, id: nat, now: int, ldap: LdapResult)
    ensures Effect(w, uid, finding, Ignore, id, now, ldap) == Some(w)
    ensures var after := Effect(w, uid, finding, DeleteDb, id, now, ldap);
            && after.Some? && after.value.directory == w.directory
            && forall u :: && (u in after.value.metas <==>
                                u in w.metas && (finding.dbId == None || w.metas[u].id != finding.dbId.value))
                           && (u in after.value.metas ==> after.value.metas[u] == w.metas[u])
  {
  }

  /** delete_ldap removes the entries at the recorded DN, raises with the call and does not notice a refusal. */
  lemma DeleteLdapEffect(w: World, uid: Uid, finding: Finding, id: nat, now: int, ldap: LdapResult)
    ensures var after := Effect(w, uid, finding, DeleteLdap, id, now, ldap);
            var calls := finding.ldapDn.Some? && finding.ldapDn.value != "";
            && (after == None <==> calls && ldap == Raised)
            && (!calls || ldap == Refused ==> after == Some(w))
            && (calls && ldap == Accepted ==>
                && after.Some? && after.value.metas == w.metas
                && forall u :: && (u in after.value.directory <==>
                                    u in w.directory && w.directory[u].dn != finding.ldapDn.value)
                               && (u in after.value.directory ==> after.value.directory[u] == w.directory[u]))
  {
  }

  /** create_db reads the entry and writes its values into a new row, unless the user has a row by now. */
  lemma CreateDbEffect(w: World, uid: Uid, finding: Finding, id: nat, now: int, ldap: LdapResult)
    ensures var after := Effect(w, uid, finding, CreateDb, id, now, ldap);
            && (after == None <==> ldap in {Refused, Raised} || uid !in w.directory)
            && (after.Some? && uid in w.metas ==> after == Some(w))
            && (after.Some? && uid !in w.metas ==>
                && after.value.directory == w.directory && after.value.metas.Keys == w.metas.Keys + {uid}
                && (forall u :: u in w.metas ==> after.value.metas[u] == w.metas[u])
                && var e, m := w.directory[uid], after.value.metas[uid];
                && m.id == id && m.inSync && m.syncedAt == Some(now) && m.mfaEnabled == View(e).mfaEnabled
                && m.ldapDn == (if finding.ldapDn == None || finding.ldapDn == Some("") then e.dn
                                else finding.ldapDn.value)
                && m.email == (if e.mail == [] then None else Some(e.mail[0]))
                && m.displayName == View(e).displayName)
  {
  }

  /** sync_attribute copies the entry's values into the rows with the recorded id, when there is an entry to read. */
  lemma SyncAttributeEffect(w: World, uid: Uid, finding: Finding, id: nat, now: int, ldap: LdapResult)
    ensures var after := Effect(w, uid, finding, SyncAttribute, id, now, ldap);
            && (after == None <==> ldap == Raised)
            && (ldap == Refused || (ldap == Accepted && (uid !in w.directory || finding.dbId == None)) ==>
                after == Some(w))
            && (ldap == Accepted && uid in w.directory && finding.dbId.Some? ==>
                && after.value.directory == w.directory && after.value.metas.Keys == w.metas.Keys
                && forall u :: u in w.metas ==>
                     var m, m' := w.metas[u], after.value.metas[u];
                     && m'.id == m.id && m'.ldapDn == m.ldapDn
                     && (m.id != finding.dbId.value ==> m' == m)
                     && (m.id == finding.dbId.value ==>
                           && m'.email == View(w.directory[uid]).mail
                           && m'.displayName == View(w.directory[uid]).displayName
                           && m'.mfaEnabled == View(w.directory[uid]).mfaEnabled
                           && m'.inSync && m'.syncedAt == Some(now)))
  {
  }
}
