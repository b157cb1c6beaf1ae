/** The HTTP handlers whose store calls exist in the database layer as it
    stands: creating a shopping list and deleting a list item, with their
    authorization and the family the deletion is announced to; the
    pagination of the lists of a calendar; and the distinct values offered
    as product filters. An announcement is returned rather than scheduled:
    the background task that would send it is outside the model. */
module Endpoints {
  import opened Models
  import opened Queries
  import opened Crud
  import opened Access

  const CalendarNotFound := HttpError(404, "Calendar not found")
  const ItemNotFound := HttpError(404, "Item not found")
  const ListOfItemNotFound := HttpError(404, "Shopping list not found for this item")

  // ---- relationships ----

  /** `db.query(Calendar).filter(Calendar.id == id).first()` */
  function CalendarById(db: Database, calendarId: int): (r: Option<Calendar>)
    reads db
    ensures r.Some? ==> r.value in db.calendars && r.value.id == calendarId
    ensures r.None? <==> forall i :: 0 <= i < |db.calendars| ==> db.calendars[i].id != calendarId
  {
    Lookup(db.calendars, (c: Calendar) => c.id == calendarId)
  }

  /** The `list` relationship of an item: none when `list_id` is null or
      names no list. */
  function ListOfItem(db: Database, item: ListItem): (r: Option<ShoppingList>)
    reads db
    ensures r.Some? ==> r.value in db.lists && item.listId == Some(r.value.id)
    ensures r.None? <==> item.listId.None? || forall i :: 0 <= i < |db.lists| ==> db.lists[i].id != item.listId.value
  {
    if item.listId.None? then None else db.GetList(item.listId.value)
  }

  /** The `calendar` relationship of a list: none when `calendar_id` is
      null or names no calendar. */
  function CalendarOfList(db: Database, l: ShoppingList): (r: Option<Calendar>)
    reads db
    ensures r.Some? ==> r.value in db.calendars && l.calendarId == Some(r.value.id)
    ensures r.None? <==> l.calendarId.None? || forall i :: 0 <= i < |db.calendars| ==> db.calendars[i].id != l.calendarId.value
  {
    if l.calendarId.None? then None else CalendarById(db, l.calendarId.value)
  }

  // ---- POST /listas/ ----

  /** The check made before a list is stored: a truthy calendar id must
      name a calendar, and the caller must belong to that calendar's
      family. A falsy calendar id (none or 0) is not checked at all. */
  function CreateListCheck(db: Database, data: ListInput, userFamilies: seq<Family>): (r: Result<(), HttpError>)
    reads db
    ensures r.Failure? ==> r.error in {CalendarNotFound, NotMember}
    ensures r == Failure(CalendarNotFound) <==>
              Truthy(data.calendarId) && CalendarById(db, data.calendarId.value).None?
    ensures r.Success? <==>
              !Truthy(data.calendarId)
              || (CalendarById(db, data.calendarId.value).Some?
                  && MemberOfCalendarFamily(CalendarById(db, data.calendarId.value).value, userFamilies))
  {
    if !Truthy(data.calendarId) then Success(())
    else match CalendarById(db, data.calendarId.value)
      case None => Failure(CalendarNotFound)
      case Some(c) => if MemberOfCalendarFamily(c, userFamilies) then Success(()) else Failure(NotMember)
  }

  /** Checks the calendar, then stores the list with the caller as owner
      (one "create" ledger entry); a failed check changes nothing. */
  method CreateShoppingListEndpoint(db: Database, data: ListInput, userId: nat, userFamilies: seq<Family>)
    returns (r: Result<ShoppingList, HttpError>)
    requires db.Valid()
    modifies db`lists, db`nextListId, db`blames, db`nextBlameId
    ensures db.Valid()
    ensures old(CreateListCheck(db, data, userFamilies)).Failure? ==>
              && r == Failure(old(CreateListCheck(db, data, userFamilies)).error)
              && db.lists == old(db.lists) && db.nextListId == old(db.nextListId)
              && db.blames == old(db.blames) && db.nextBlameId == old(db.nextBlameId)
    ensures old(CreateListCheck(db, data, userFamilies)).Success? ==>
              && r == Success(ShoppingList(old(db.nextListId), data.name, data.notas, data.comentarios,
                                           DefaultListStatus, None, data.calendarId, Some(userId)))
              && db.lists == old(db.lists) + [r.value] && db.nextListId == old(db.nextListId) + 1
              && db.blames == old(db.blames) + [Blame(old(db.nextBlameId), Some(userId), CreateAction, Lista,
                                                      r.value.id, Some(ListCreatedDetails(data.name)))]
              && db.nextBlameId == old(db.nextBlameId) + 1
  {
    if Truthy(data.calendarId) {
      var calendar := CalendarById(db, data.calendarId.value);
      if calendar.None? {
        return Failure(CalendarNotFound);
      }
      if calendar.value.familyId.None? {
        // `get_family_for_user(None, ...)` matches none of the user's families
        return Failure(NotMember);
      }
      var family := GetFamilyForUser(calendar.value.familyId.value, userFamilies);
      if family.Failure? {
        return Failure(family.error);
      }
    }
    var l := db.CreateShoppingList(data, userId);
    r := Success(l);
  }

  /** Whoever creates a list may act on it afterwards, provided calendar
      ids start at 1 (a calendar with id 0 would escape the check, since
      0 is falsy). */
  lemma CreatorMayAccessNewList(db: Database, data: ListInput, userId: nat, userFamilies: seq<Family>)
    requires forall i :: 0 <= i < |db.calendars| ==> db.calendars[i].id != 0
    requires CreateListCheck(db, data, userFamilies).Success?
    ensures ListAccess(if data.calendarId.None? then None else CalendarById(db, data.calendarId.value),
                       Some(userId), userId, userFamilies).Success?
  {
    if data.calendarId.Some? && data.calendarId.value == 0 {
      assert CalendarById(db, 0).None?;
    }
  }

  // ---- DELETE /items/{item_id} ----

  /** What a deletion hands back: the deleted item, and the family told
      about it, if any. */
  datatype Deleted = Deleted(item: ListItem, announceTo: Option<nat>)

  /** The checks made before an item is deleted, and the family the
      deletion is announced to when they pass. */
  function DeleteItemCheck(db: Database, itemId: int, userId: nat, userFamilies: seq<Family>)
    : (r: Result<Option<nat>, HttpError>)
    reads db
    ensures db.GetItem(itemId).None? ==> r == Failure(ItemNotFound)
    ensures db.GetItem(itemId).Some? && ListOfItem(db, db.GetItem(itemId).value).None? ==>
              r == Failure(ListOfItemNotFound)
    ensures db.GetItem(itemId).Some? && ListOfItem(db, db.GetItem(itemId).value).Some? ==>
              var l := ListOfItem(db, db.GetItem(itemId).value).value;
              var access := ListAccess(CalendarOfList(db, l), l.ownerId, userId, userFamilies);
              && (r.Success? <==> access.Success?)
              && (access.Failure? ==> r == Failure(access.error))
              && (access.Success? ==> r == Success(BroadcastTarget(CalendarOfList(db, l), userFamilies)))
    ensures r.Success? && r.value.Some? ==> BelongsTo(r.value.value, userFamilies)
    ensures r.Success? && r.value.None? ==> |userFamilies| == 0 || userFamilies[0].id == 0
  {
    match db.GetItem(itemId)
    case None => Failure(ItemNotFound)
    case Some(item) =>
      match ListOfItem(db, item)
      case None => Failure(ListOfItemNotFound)
      case Some(l) =>
        var calendar := CalendarOfList(db, l);
        match ListAccess(calendar, l.ownerId, userId, userFamilies)
        case Failure(e) => Failure(e)
        case Success(_) =>
          CreateTargetIsUsersFamily(calendar, l.ownerId, userId, userFamilies);
          Success(BroadcastTarget(calendar, userFamilies))
  }

  /** Checks the item, its list and the caller's right to the list, then
      deletes the item (one "delete" ledger entry) and names the family to
      tell; a failed check changes nothing. */
  method DeleteItemEndpoint(db: Database, itemId: int, userId: nat, userFamilies: seq<Family>)
    returns (r: Result<Deleted, HttpError>)
    requires db.Valid()
    modifies db`items, db`blames, db`nextBlameId
    ensures db.Valid()
    ensures old(DeleteItemCheck(db, itemId, userId, userFamilies)).Failure? ==>
              && r == Failure(old(DeleteItemCheck(db, itemId, userId, userFamilies)).error)
              && db.items == old(db.items) && db.blames == old(db.blames) && db.nextBlameId == old(db.nextBlameId)
    ensures old(DeleteItemCheck(db, itemId, userId, userFamilies)).Success? ==>
              var k := old(db.ItemIndex(itemId)).value;
              && r == Success(Deleted(old(db.items)[k], old(DeleteItemCheck(db, itemId, userId, userFamilies)).value))
              && db.items == old(db.items)[..k] + old(db.items)[k + 1..]
              && db.blames == old(db.blames) + [Blame(old(db.nextBlameId), Some(userId), DeleteAction, Item, itemId,
                                                      Some(ItemDeletedDetails(old(db.items)[k].nombre)))]
              && db.nextBlameId == old(db.nextBlameId) + 1
  {
    var item := db.GetItem(itemId);
    if item.None? {
      return Failure(ItemNotFound);
    }
    var list := ListOfItem(db, item.value);
    if list.None? {
      return Failure(ListOfItemNotFound);
    }
    var calendar := CalendarOfList(db, list.value);
    if calendar.Some? {
      if calendar.value.familyId.None? {
        return Failure(NotMember);
      }
      var family := GetFamilyForUser(calendar.value.familyId.value, userFamilies);
      if family.Failure? {
        return Failure(family.error);
      }
    } else if list.value.ownerId != Some(userId) {
      return Failure(NotPermitted);
    }
    var familyId := BroadcastTarget(calendar, userFamilies);
    var removed := db.DeleteItem(itemId, userId);
    r := Success(Deleted(removed.value, familyId));
  }

  // ---- GET /listas/ pagination ----

  /** The window asked of the query: rows skipped, and the row limit
      (none: every remaining row). */
  datatype Paging = Paging(skip: int, limit: Option<int>)

  /** The dates are compared with `None` only; their values filter the
      lists before the window applies. */
  predicate Unpaged(startDate: Option<int>, endDate: Option<int>) {
    startDate.Some? && endDate.Some?
  }

  /** Both dates given: everything, from the start. Otherwise the
      `page`-th run of `size` rows, counting pages from 1. */
  function ListsPaging(page: int, size: int, startDate: Option<int>, endDate: Option<int>): (r: Paging)
    ensures r.limit.None? <==> Unpaged(startDate, endDate)
    ensures r.limit.None? ==> r.skip == 0
    ensures r.limit.Some? ==> r.limit.value == size && r.skip + size == page * size
  {
    if Unpaged(startDate, endDate) then Paging(0, None) else Paging((page - 1) * size, Some(size))
  }

  /** The `page` and `size` the response reports: page 1 of size `total`
      when unpaged, the requested ones otherwise. */
  function ListsPageMeta(page: int, size: int, startDate: Option<int>, endDate: Option<int>, total: nat)
    : (r: (int, int))
    ensures Unpaged(startDate, endDate) ==> r == (1, total)
    ensures !Unpaged(startDate, endDate) ==> r == (page, size)
  {
    if Unpaged(startDate, endDate) then (1, total) else (page, size)
  }

  /** `.offset(skip).limit(limit)` with an absent limit meaning all rows. */
  function Select<T>(rows: seq<T>, p: Paging): (r: seq<T>)
    requires p.skip >= 0 && (p.limit.Some? ==> p.limit.value >= 0)
    ensures |r| <= |rows|
    ensures forall i :: 0 <= i < |r| ==> p.skip + i < |rows| && r[i] == rows[p.skip + i]
  {
    Window(rows, p.skip, if p.limit.None? then |rows| else p.limit.value)
  }

  /** Page `page` (from 1) of `size` rows. */
  function PageOf<T>(rows: seq<T>, page: nat, size: nat): seq<T>
    requires page >= 1
  {
    Select(rows, ListsPaging(page, size, None, None))
  }

  /** An unpaged answer is the paged answer for page 1 with the size it
      reports: all rows. */
  lemma UnpagedIsSinglePage<T>(rows: seq<T>, page: int, size: int, startDate: Option<int>, endDate: Option<int>)
    requires Unpaged(startDate, endDate)
    ensures Select(rows, ListsPaging(page, size, startDate, endDate)) == rows
    ensures var (p, s) := ListsPageMeta(page, size, startDate, endDate, |rows|);
            p == 1 && Select(rows, ListsPaging(p, s, None, None)) == rows
  {
    assert rows[0..] == rows;
  }

  /** Every row is on exactly the page its position says: row `i` is entry
      `i % size` of page `i / size + 1`. */
  lemma RowOnItsPage<T>(rows: seq<T>, size: nat, i: nat)
    requires size >= 1 && i < |rows|
    ensures var page := PageOf(rows, i / size + 1, size);
            i % size < |page| && page[i % size] == rows[i]
  {
    var q, m := i / size, i % size;
    assert q * size + m == i;
    assert (q + 1 - 1) * size == q * size;
  }

  /** Pages `1 .. n` in order. */
  function FirstPages<T>(rows: seq<T>, size: nat, n: nat): seq<T> {
    if n == 0 then [] else FirstPages(rows, size, n - 1) + PageOf(rows, n, size)
  }

  /** Page `n` is the slice of rows from `(n - 1) * size` up to `size`
      rows further, both ends cut at the end of the rows. */
  lemma PageIsSlice<T>(rows: seq<T>, size: nat, n: nat)
    requires n >= 1
    ensures PageOf(rows, n, size) == rows[Cut(rows, (n - 1) * size)..Cut(rows, (n - 1) * size + size)]
  {
  }

  function Cut<T>(rows: seq<T>, k: nat): nat {
    if k <= |rows| then k else |rows|
  }

  lemma NextPageStart(n: nat, size: nat)
    requires n >= 1
    ensures n * size == (n - 1) * size + size
  {
  }

  /** Reading pages 1 to `n` in turn yields the first `n * size` rows, in
      order, with nothing skipped or repeated. */
  lemma {:induction false} PagesTile<T>(rows: seq<T>, size: nat, n: nat)
    ensures FirstPages(rows, size, n) == rows[..Cut(rows, n * size)]
  {
    if n > 0 {
      var a := (n - 1) * size;
      PagesTile(rows, size, n - 1);
      PageIsSlice(rows, size, n);
      NextPageStart(n, size);
      assert FirstPages(rows, size, n) == FirstPages(rows, size, n - 1) + PageOf(rows, n, size);
      SlicesJoin(rows, Cut(rows, a), Cut(rows, a + size));
    }
  }

  lemma SlicesJoin<T>(rows: seq<T>, lo: nat, hi: nat)
    requires lo <= hi <= |rows|
    ensures rows[..lo] + rows[lo..hi] == rows[..hi]
  {
  }

  // ---- GET /families/{family_id}/filters ----

  /** Some value in the column is `v`, and `v` is truthy. */
  predicate Present(values: seq<Option<string>>, v: string) {
    exists i :: 0 <= i < |values| && values[i] == Some(v) && v != ""
  }

  /** `list(set([v for v in values if v]))`: each truthy value once. The
      set's iteration order is Python's; this keeps first occurrences in
      order. */
  function DistinctPresent(values: seq<Option<string>>): (r: seq<string>)
    ensures NoDuplicates(r)
    ensures forall v :: v in r <==> Present(values, v)
  {
    if |values| == 0 then []
    else
      var rest := DistinctPresent(values[..|values| - 1]);
      var last := values[|values| - 1];
      assert forall v :: Present(values, v) <==> Present(values[..|values| - 1], v) || (last == Some(v) && v != "") by {
        forall v | Present(values, v) ensures Present(values[..|values| - 1], v) || (last == Some(v) && v != "") {
          var i :| 0 <= i < |values| && values[i] == Some(v) && v != "";
          if i < |values| - 1 {
            assert values[..|values| - 1][i] == values[i];
          }
        }
        forall v | Present(values[..|values| - 1], v) ensures Present(values, v) {
          var i :| 0 <= i < |values| - 1 && values[..|values| - 1][i] == Some(v) && v != "";
          assert values[i] == Some(v);
        }
      }
      if last.Some? && last.value != "" && last.value !in rest then
        AppendFresh(rest, last.value);
        rest + [last.value]
      else rest
  }
}
