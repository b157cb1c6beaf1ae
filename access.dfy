/** The authorization rules of the HTTP layer: family membership, who may
    touch a shopping list and its items, and which family an item change is
    announced to. A user's families are the `user.families` relationship as
    loaded, in its load order. */
module Access {
  import opened Models
  import opened Queries

  /** An `HTTPException`: status code and detail text. */
  datatype HttpError = HttpError(status: nat, detail: string)

  const NotMember := HttpError(403, "User does not belong to this family")
  const NotPermitted := HttpError(403, "Not enough permissions")
  const NoFamily := HttpError(400, "User does not belong to any family.")

  /** Python truthiness of an optional id: `None` and `0` are both false. */
  predicate Truthy(id: Option<nat>) {
    id.Some? && id.value != 0
  }

  /** The user is a member of family `familyId`. */
  predicate BelongsTo(familyId: int, userFamilies: seq<Family>) {
    exists i :: 0 <= i < |userFamilies| && userFamilies[i].id == familyId
  }

  /** The family a membership check hands back: the first of the user's
      families with that id. */
  function FamilyOfUser(familyId: int, userFamilies: seq<Family>): (r: Option<Family>)
    ensures r.Some? <==> BelongsTo(familyId, userFamilies)
    ensures r.Some? ==> r.value in userFamilies && r.value.id == familyId
  {
    Lookup(userFamilies, (f: Family) => f.id == familyId)
  }

  /** Scans the user's families for the requested id; 403 if none has it. */
  method GetFamilyForUser(familyId: int, userFamilies: seq<Family>) returns (r: Result<Family, HttpError>)
    ensures r.Success? <==> BelongsTo(familyId, userFamilies)
    ensures r.Success? ==> r == Success(FamilyOfUser(familyId, userFamilies).value)
    ensures r.Failure? ==> r.error == NotMember
  {
    var i := 0;
    while i < |userFamilies|
      invariant 0 <= i <= |userFamilies|
      invariant forall j :: 0 <= j < i ==> userFamilies[j].id != familyId
    {
      if userFamilies[i].id == familyId {
        FirstMatchIsLookup(familyId, userFamilies, i);
        return Success(userFamilies[i]);
      }
      i := i + 1;
    }
    return Failure(NotMember);
  }

  lemma FirstMatchIsLookup(familyId: int, userFamilies: seq<Family>, i: nat)
    requires i < |userFamilies| && userFamilies[i].id == familyId
    requires forall j :: 0 <= j < i ==> userFamilies[j].id != familyId
    ensures FamilyOfUser(familyId, userFamilies) == Some(userFamilies[i])
  {
  }

  /** The membership check on the calendar's family; a calendar with no
      family matches none of the user's families. */
  predicate MemberOfCalendarFamily(calendar: Calendar, userFamilies: seq<Family>) {
    calendar.familyId.Some? && BelongsTo(calendar.familyId.value, userFamilies)
  }

  /** Who may act on a list (and on its items): for a list in a calendar,
      the members of the calendar's family; otherwise only its owner. */
  function ListAccess(calendar: Option<Calendar>, ownerId: Option<nat>, userId: nat,
                      userFamilies: seq<Family>): (r: Result<(), HttpError>)
    ensures calendar.Some? ==>
              (r.Success? <==> MemberOfCalendarFamily(calendar.value, userFamilies))
              && (r.Failure? ==> r.error == NotMember)
    ensures calendar.None? ==>
              (r.Success? <==> ownerId == Some(userId))
              && (r.Failure? ==> r.error == NotPermitted)
  {
    match calendar
    case Some(c) => if MemberOfCalendarFamily(c, userFamilies) then Success(()) else Failure(NotMember)
    case None => if ownerId == Some(userId) then Success(()) else Failure(NotPermitted)
  }

  /** The family an item creation is announced to: the calendar's family,
      or, when that is missing or falsy, the user's first family; 400 when
      the user has none. Applies only once `ListAccess` has succeeded. */
  function CreateTargetFamily(calendar: Option<Calendar>, userFamilies: seq<Family>): (r: Result<nat, HttpError>)
    ensures r.Failure? ==> r.error == NoFamily
    ensures calendar.Some? && Truthy(calendar.value.familyId) ==> r == Success(calendar.value.familyId.value)
    ensures !(calendar.Some? && Truthy(calendar.value.familyId)) ==>
              r == if |userFamilies| > 0 then Success(userFamilies[0].id) else Failure(NoFamily)
  {
    if calendar.Some? && Truthy(calendar.value.familyId) then Success(calendar.value.familyId.value)
    else if |userFamilies| == 0 then Failure(NoFamily)
    else Success(userFamilies[0].id)
  }

  /** The family an item update or deletion is announced to, if any: the
      one creation would use, unless creation would fail for lack of a
      family or the id is falsy (`if family_id:`). */
  function BroadcastTarget(calendar: Option<Calendar>, userFamilies: seq<Family>): (r: Option<nat>)
    ensures r.None? <==> CreateTargetFamily(calendar, userFamilies) in {Failure(NoFamily), Success(0)}
    ensures r.Some? ==> CreateTargetFamily(calendar, userFamilies) == Success(r.value) && r.value != 0
  {
    if calendar.Some? && Truthy(calendar.value.familyId) then Some(calendar.value.familyId.value)
    else if |userFamilies| > 0 && userFamilies[0].id != 0 then Some(userFamilies[0].id)
    else None
  }

  /** Once access is granted, creation always announces to a family the
      user belongs to, and fails exactly for a list without a calendar
      whose owner has no family. */
  lemma CreateTargetIsUsersFamily(calendar: Option<Calendar>, ownerId: Option<nat>, userId: nat,
                                  userFamilies: seq<Family>)
    requires ListAccess(calendar, ownerId, userId, userFamilies).Success?
    ensures CreateTargetFamily(calendar, userFamilies).Success? ==>
              BelongsTo(CreateTargetFamily(calendar, userFamilies).value, userFamilies)
    ensures CreateTargetFamily(calendar, userFamilies).Failure? <==> calendar.None? && |userFamilies| == 0
  {
    if calendar.Some? && !Truthy(calendar.value.familyId) {
      assert MemberOfCalendarFamily(calendar.value, userFamilies);
      assert |userFamilies| > 0;
    }
    if !(calendar.Some? && Truthy(calendar.value.familyId)) && |userFamilies| > 0 {
      assert BelongsTo(userFamilies[0].id, userFamilies);
    }
  }
}
