/** Family membership handlers: removing a member (owner only), the
    administrator's add and remove, joining by invitation code, and creating
    a family under a fresh random code. `family.users` is the family's side
    of the `user_families` association, held as user ids. */
module Families {
  import opened Models
  import opened Queries
  import opened Crud
  import opened Access

  const FamilyNotFound := HttpError(404, "Family not found")
  const NotOwner := HttpError(403, "Only the family owner can perform this action")
  const NotInFamily := HttpError(404, "User not found in this family")
  const OwnerProtected := HttpError(400, "Cannot remove the family owner")
  const NotAdmin := HttpError(403, "The user doesn't have enough privileges")
  const UserNotFound := HttpError(404, "User not found")
  const AlreadyMember := HttpError(400, "User is already in this family")
  const NotAMember := HttpError(400, "User is not in this family")
  const CodeNotFound := HttpError(404, "Family code not found")

  /** Position of the family with that id (a lookup by primary key). */
  function FamilyIndex(families: seq<Family>, familyId: int): (r: Option<nat>)
    ensures r.Some? ==> r.value < |families| && families[r.value].id == familyId
    ensures r.None? <==> forall i :: 0 <= i < |families| ==> families[i].id != familyId
  {
    FindFirst(families, (f: Family) => f.id == familyId)
  }

  /** Position of the first family with that invitation code. */
  function FamilyIndexByCode(families: seq<Family>, code: string): (r: Option<nat>)
    ensures r.Some? ==> r.value < |families| && families[r.value].code == code
    ensures r.None? <==> forall i :: 0 <= i < |families| ==> families[i].code != code
  {
    FindFirst(families, (f: Family) => f.code == code)
  }

  function UserExists(users: seq<User>, userId: int): bool {
    exists i :: 0 <= i < |users| && users[i].id == userId
  }

  /** The owner-only guard: the family exists and the caller owns it. */
  function OwnedFamily(families: seq<Family>, familyId: int, currentUserId: nat): (r: Result<nat, HttpError>)
    ensures r.Success? <==> FamilyIndex(families, familyId).Some?
                            && families[FamilyIndex(families, familyId).value].ownerId == Some(currentUserId)
    ensures r.Success? ==> r.value == FamilyIndex(families, familyId).value
    ensures r.Failure? ==> r.error == (if FamilyIndex(families, familyId).None? then FamilyNotFound else NotOwner)
  {
    match FamilyIndex(families, familyId)
    case None => Failure(FamilyNotFound)
    case Some(k) => if families[k].ownerId != Some(currentUserId) then Failure(NotOwner) else Success(k)
  }

  /** A membership change touches one family's member list and nothing else. */
  lemma MembersChangeKeepsValid(db: Database, k: nat, members: seq<nat>)
    requires db.Valid() && k < |db.families| && NoDuplicates(members)
    ensures var fs := db.families[k := db.families[k].(users := members)];
            IdTable(fs, FamilyKey, db.nextFamilyId) && KeysUnique(fs, FamilyCode)
            && forall i :: 0 <= i < |fs| ==> NoDuplicates(fs[i].users)
  {
    var f := db.families[k].(users := members);
    ReplaceRow(db.families, FamilyKey, db.nextFamilyId, k, f);
    ReplaceRowUnique(db.families, FamilyCode, k, f);
  }

  /** The owner removes a member: fails 404/403 on the owner guard, 404 if
      the user does not exist or is not a member, 400 if the user is the
      owner; otherwise exactly that user leaves the family. */
  method RemoveFamilyMember(db: Database, familyId: int, userId: int, currentUserId: nat)
    returns (r: Result<Family, HttpError>)
    requires db.Valid()
    modifies db`families
    ensures db.Valid()
    ensures r.Failure? ==> db.families == old(db.families)
    ensures OwnedFamily(old(db.families), familyId, currentUserId).Failure? ==>
              r == Failure(OwnedFamily(old(db.families), familyId, currentUserId).error)
    ensures OwnedFamily(old(db.families), familyId, currentUserId).Success? ==>
              var k := OwnedFamily(old(db.families), familyId, currentUserId).value;
              var fam := old(db.families)[k];
              && (!UserExists(db.users, userId) || userId !in fam.users ==> r == Failure(NotInFamily))
              && (UserExists(db.users, userId) && userId in fam.users && fam.ownerId == Some(userId) ==>
                    r == Failure(OwnerProtected))
              && (UserExists(db.users, userId) && userId in fam.users && fam.ownerId != Some(userId) ==>
                    && r == Success(fam.(users := RemoveFirst(fam.users, userId)))
                    && db.families == old(db.families)[k := r.value]
                    && (forall u :: u in r.value.users <==> u in fam.users && u != userId)
                    && r.value.ownerId == fam.ownerId)
    ensures r.Success? ==> UserExists(db.users, userId) && r.value.ownerId == Some(currentUserId)
  {
    var owned := OwnedFamily(db.families, familyId, currentUserId);
    if owned.Failure? {
      return Failure(owned.error);
    }
    var k := owned.value;
    var fam := db.families[k];
    if !UserExists(db.users, userId) || userId !in fam.users {
      return Failure(NotInFamily);
    }
    if fam.ownerId == Some(userId) {
      return Failure(OwnerProtected);
    }
    var members := RemoveFirst(fam.users, userId);
    RemoveFirstKeepsNoDuplicates(fam.users, userId);
    RemoveFirstMembers(fam.users, userId);
    MembersChangeKeepsValid(db, k, members);
    db.families := db.families[k := fam.(users := members)];
    r := Success(fam.(users := members));
  }

  /** The administrator adds a member: 403 for a non-administrator, 404
      for an unknown family or user, 400 if already a member; otherwise the
      user is appended once, so the member list stays duplicate-free. */
  method AdminAddFamilyMember(db: Database, familyId: int, userId: int, current: User)
    returns (r: Result<Family, HttpError>)
    requires db.Valid()
    modifies db`families
    ensures db.Valid()
    ensures r.Failure? ==> db.families == old(db.families)
    ensures !current.isAdmin ==> r == Failure(NotAdmin)
    ensures current.isAdmin && FamilyIndex(old(db.families), familyId).None? ==> r == Failure(FamilyNotFound)
    ensures current.isAdmin && FamilyIndex(old(db.families), familyId).Some? ==>
              var k := FamilyIndex(old(db.families), familyId).value;
              var fam := old(db.families)[k];
              && (!UserExists(db.users, userId) ==> r == Failure(UserNotFound))
              && (UserExists(db.users, userId) && userId in fam.users ==> r == Failure(AlreadyMember))
              && (UserExists(db.users, userId) && userId !in fam.users ==>
                    && r == Success(fam.(users := fam.users + [userId]))
                    && db.families == old(db.families)[k := r.value])
  {
    if !current.isAdmin {
      return Failure(NotAdmin);
    }
    var found := FamilyIndex(db.families, familyId);
    if found.None? {
      return Failure(FamilyNotFound);
    }
    var k := found.value;
    var fam := db.families[k];
    if !UserExists(db.users, userId) {
      return Failure(UserNotFound);
    }
    if userId in fam.users {
      return Failure(AlreadyMember);
    }
    var members := fam.users + [userId];
    AppendFresh(fam.users, userId);
    MembersChangeKeepsValid(db, k, members);
    db.families := db.families[k := fam.(users := members)];
    r := Success(fam.(users := members));
  }

  /** The administrator removes a member: 403 for a non-administrator, 404
      for an unknown family or user, 400 if not a member or if the owner;
      otherwise exactly that user leaves the family. */
  method AdminRemoveFamilyMember(db: Database, familyId: int, userId: int, current: User)
    returns (r: Result<Family, HttpError>)
    requires db.Valid()
    modifies db`families
    ensures db.Valid()
    ensures r.Failure? ==> db.families == old(db.families)
    ensures !current.isAdmin ==> r == Failure(NotAdmin)
    ensures current.isAdmin && FamilyIndex(old(db.families), familyId).None? ==> r == Failure(FamilyNotFound)
    ensures current.isAdmin && FamilyIndex(old(db.families), familyId).Some? ==>
              var k := FamilyIndex(old(db.families), familyId).value;
              var fam := old(db.families)[k];
              && (!UserExists(db.users, userId) ==> r == Failure(UserNotFound))
              && (UserExists(db.users, userId) && userId !in fam.users ==> r == Failure(NotAMember))
              && (UserExists(db.users, userId) && userId in fam.users && fam.ownerId == Some(userId) ==>
                    r == Failure(OwnerProtected))
              && (UserExists(db.users, userId) && userId in fam.users && fam.ownerId != Some(userId) ==>
                    && r == Success(fam.(users := RemoveFirst(fam.users, userId)))
                    && db.families == old(db.families)[k := r.value]
                    && (forall u :: u in r.value.users <==> u in fam.users && u != userId))
  {
    if !current.isAdmin {
      return Failure(NotAdmin);
    }
    var found := FamilyIndex(db.families, familyId);
    if found.None? {
      return Failure(FamilyNotFound);
    }
    var k := found.value;
    var fam := db.families[k];
    if !UserExists(db.users, userId) {
      return Failure(UserNotFound);
    }
    if userId !in fam.users {
      return Failure(NotAMember);
    }
    if fam.ownerId == Some(userId) {
      return Failure(OwnerProtected);
    }
    var members := RemoveFirst(fam.users, userId);
    RemoveFirstKeepsNoDuplicates(fam.users, userId);
    RemoveFirstMembers(fam.users, userId);
    MembersChangeKeepsValid(db, k, members);
    db.families := db.families[k := fam.(users := members)];
    r := Success(fam.(users := members));
  }

  /** Joining by invitation code: 404 for an unknown code, 400 if already a
      member; otherwise the caller is appended once. */
  method JoinFamily(db: Database, code: string, currentUserId: nat) returns (r: Result<Family, HttpError>)
    requires db.Valid()
    modifies db`families
    ensures db.Valid()
    ensures r.Failure? ==> db.families == old(db.families)
    ensures FamilyIndexByCode(old(db.families), code).None? ==> r == Failure(CodeNotFound)
    ensures FamilyIndexByCode(old(db.families), code).Some? ==>
              var k := FamilyIndexByCode(old(db.families), code).value;
              var fam := old(db.families)[k];
              && (currentUserId in fam.users ==> r == Failure(AlreadyMember))
              && (currentUserId !in fam.users ==>
                    && r == Success(fam.(users := fam.users + [currentUserId]))
                    && db.families == old(db.families)[k := r.value])
  {
    var found := FamilyIndexByCode(db.families, code);
    if found.None? {
      return Failure(CodeNotFound);
    }
    var k := found.value;
    var fam := db.families[k];
    if currentUserId in fam.users {
      return Failure(AlreadyMember);
    }
    var members := fam.users + [currentUserId];
    AppendFresh(fam.users, currentUserId);
    MembersChangeKeepsValid(db, k, members);
    db.families := db.families[k := fam.(users := members)];
    r := Success(fam.(users := members));
  }

  // ---- invitation codes ----

  /** `string.ascii_uppercase + string.digits` */
  const CodeAlphabet: string := "ABCDEFGHIJKLMNOPQRSTUVWXYZ0123456789"
  const CodeLength: nat := 8

  /** What one `''.join(random.choices(alphabet, k=8))` can return. */
  predicate IsCode(c: string) {
    |c| == CodeLength && forall i :: 0 <= i < |c| ==> c[i] in CodeAlphabet
  }

  predicate CodeTaken(families: seq<Family>, code: string) {
    exists i :: 0 <= i < |families| && families[i].code == code
  }

  /** The code-uniqueness loop: draws again while some family already has
      the drawn code, so the result is the first free draw. */
  method PickFreeCode(families: seq<Family>, draws: seq<string>) returns (k: nat, code: string)
    requires exists k :: 0 <= k < |draws| && !CodeTaken(families, draws[k])
    ensures k < |draws| && code == draws[k]
    ensures !CodeTaken(families, code)
    ensures forall j :: 0 <= j < k ==> CodeTaken(families, draws[j])
  {
    ghost var free :| 0 <= free < |draws| && !CodeTaken(families, draws[free]);
    k := 0;
    code := draws[0];
    while FamilyIndexByCode(families, code).Some?
      invariant k <= free && code == draws[k]
      invariant forall j :: 0 <= j < k ==> CodeTaken(families, draws[j])
      decreases free - k
    {
      assert CodeTaken(families, code) by {
        var i := FamilyIndexByCode(families, code).value;
        assert families[i].code == code;
      }
      k := k + 1;
      code := draws[k];
    }
  }

  /** Creates a family under the first drawn code no family has yet, owned
      by the caller and with the caller as its only member. The random
      source is the sequence of draws it will produce; it is assumed to
      produce a free code eventually. */
  method CreateFamily(db: Database, nombre: string, notas: Option<string>, currentUserId: nat,
                      draws: seq<string>) returns (fam: Family)
    requires db.Valid()
    requires forall k :: 0 <= k < |draws| ==> IsCode(draws[k])
    requires exists k :: 0 <= k < |draws| && !CodeTaken(db.families, draws[k])
    modifies db`families, db`nextFamilyId
    ensures db.Valid()
    ensures fam.id == old(db.nextFamilyId) && fam.nombre == nombre && fam.notas == notas
    ensures fam.ownerId == Some(currentUserId) && fam.users == [currentUserId]
    ensures db.families == old(db.families) + [fam] && db.nextFamilyId == old(db.nextFamilyId) + 1
    ensures !CodeTaken(old(db.families), fam.code)
    ensures IsCode(fam.code)
    ensures exists k :: && 0 <= k < |draws| && fam.code == draws[k]
                        && forall j :: 0 <= j < k ==> CodeTaken(old(db.families), draws[j])
  {
    var k, code := PickFreeCode(db.families, draws);
    fam := Family(db.nextFamilyId, code, nombre, notas, Some(currentUserId), [currentUserId]);
    AppendRow(db.families, FamilyKey, db.nextFamilyId, fam);
    AppendFreshKey(db.families, FamilyCode, fam);
    db.families := db.families + [fam];
    db.nextFamilyId := db.nextFamilyId + 1;
  }

  lemma AppendFreshKey<T, K>(rows: seq<T>, key: T -> K, r: T)
    requires KeysUnique(rows, key) && forall i :: 0 <= i < |rows| ==> key(rows[i]) != key(r)
    ensures KeysUnique(rows + [r], key)
  {
    var t := rows + [r];
    forall i, j | 0 <= i < j < |t| ensures key(t[i]) != key(t[j]) {
      assert t[i] == rows[i];
    }
  }
}
