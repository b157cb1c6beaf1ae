/** The database session and the create/read/update/delete operations on
    users, shopping lists, list items and the audit ledger. Each table is a
    sequence of rows in primary-key order; ids come from per-table
    autoincrement counters. Every mutation of a list or an item appends
    exactly one `Blame` entry; nothing ever changes or removes one. */
module Crud {
  import opened Models
  import opened Queries

  /** A commit rejected by the storage engine (a unique index violated). */
  datatype DbError = IntegrityError(detail: string)

  /** The fields a caller supplies for a new user; the password arrives
      already hashed, since hashing is a library call. */
  datatype UserInput = UserInput(
    email: string,
    username: string,
    nombre: Option<string>,
    direccion: Option<string>,
    telefono: Option<string>)

  /** The fields a caller supplies for a new shopping list. */
  datatype ListInput = ListInput(
    name: string,
    notas: Option<string>,
    comentarios: Option<string>,
    calendarId: Option<nat>)

  /** The fields a caller supplies for a new list item. */
  datatype ItemInput = ItemInput(
    nombre: string,
    cantidad: Float,
    listId: nat,
    comentario: Option<string>)

  const CreateAction := "create"
  const UpdateAction := "update"
  const DeleteAction := "delete"
  const DefaultBlameAction := "blame"

  function ListCreatedDetails(name: string): string {
    "Lista '" + name + "' creada."
  }

  function ItemCreatedDetails(nombre: string): string {
    "Producto '" + nombre + "' agregado a la lista."
  }

  function StatusChangeDetails(nombre: string, from: ItemStatus, to: ItemStatus): string {
    "Estado del producto '" + nombre + "' cambiado de '" + ItemStatusText(from) + "' a '" + ItemStatusText(to) + "'."
  }

  function ItemDeletedDetails(nombre: string): string {
    "Item '" + nombre + "' eliminado de la lista."
  }

  function UserKey(u: User): int { u.id }
  function UserEmail(u: User): string { u.email }
  function FamilyKey(f: Family): int { f.id }
  function FamilyCode(f: Family): string { f.code }
  function CalendarKey(c: Calendar): int { c.id }
  function ListKey(l: ShoppingList): int { l.id }
  function ItemKey(i: ListItem): int { i.id }
  function BlameKey(b: Blame): int { b.id }

  ghost predicate KeysUnique<T, K>(rows: seq<T>, key: T -> K) {
    forall i, j :: 0 <= i < j < |rows| ==> key(rows[i]) != key(rows[j])
  }

  /** Rows with unique keys are distinct rows. */
  lemma KeysUniqueDistinct<T, K>(rows: seq<T>, key: T -> K)
    requires KeysUnique(rows, key)
    ensures NoDuplicates(rows)
  {
    forall i, j | 0 <= i < j < |rows| ensures rows[i] != rows[j] {
      assert key(rows[i]) != key(rows[j]);
    }
  }

  ghost predicate KeysBelow<T>(rows: seq<T>, key: T -> int, next: int) {
    forall i :: 0 <= i < |rows| ==> key(rows[i]) < next
  }

  /** An autoincrement table: ids unique and below the next id to hand out. */
  ghost predicate IdTable<T>(rows: seq<T>, key: T -> int, next: int) {
    KeysUnique(rows, key) && KeysBelow(rows, key, next)
  }

  lemma AppendRow<T>(rows: seq<T>, key: T -> int, next: int, r: T)
    requires IdTable(rows, key, next) && key(r) == next
    ensures IdTable(rows + [r], key, next + 1)
  {
    var t := rows + [r];
    forall i, j | 0 <= i < j < |t| ensures key(t[i]) != key(t[j]) {
      assert t[i] == rows[i];
    }
  }

  lemma RemoveRow<T>(rows: seq<T>, key: T -> int, next: int, k: nat)
    requires IdTable(rows, key, next) && k < |rows|
    ensures IdTable(rows[..k] + rows[k + 1..], key, next)
    ensures forall x :: x in rows[..k] + rows[k + 1..] ==> key(x) != key(rows[k])
  {
    var t := rows[..k] + rows[k + 1..];
    forall i | 0 <= i < |t| ensures t[i] == rows[if i < k then i else i + 1] {
      CutIndex(rows, k, i);
    }
  }

  /** Rewriting a row in place without touching its key keeps keys unique. */
  lemma ReplaceRowUnique<T, K>(rows: seq<T>, key: T -> K, k: nat, r: T)
    requires KeysUnique(rows, key) && k < |rows| && key(r) == key(rows[k])
    ensures KeysUnique(rows[k := r], key)
  {
    var t := rows[k := r];
    forall i, j | 0 <= i < j < |t| ensures key(t[i]) != key(t[j]) {
      assert key(t[i]) == key(rows[i]) && key(t[j]) == key(rows[j]);
    }
  }

  /** Rewriting a row in place without touching its id keeps the table an
      autoincrement table. */
  lemma ReplaceRow<T>(rows: seq<T>, key: T -> int, next: int, k: nat, r: T)
    requires IdTable(rows, key, next) && k < |rows| && key(r) == key(rows[k])
    ensures IdTable(rows[k := r], key, next)
  {
    ReplaceRowUnique(rows, key, k, r);
    assert forall i :: 0 <= i < |rows| ==> key(rows[k := r][i]) == key(rows[i]);
  }

  class Database {
    var users: seq<User>
    var families: seq<Family>
    var calendars: seq<Calendar>
    var lists: seq<ShoppingList>
    var items: seq<ListItem>
    var blames: seq<Blame>
    var nextUserId: nat
    var nextFamilyId: nat
    var nextListId: nat
    var nextItemId: nat
    var nextBlameId: nat

    /** The table constraints: primary keys, the unique indexes on
        `users.email` and `families.code`, and the composite primary key
        of `user_families` (no user twice in one family). */
    ghost predicate Valid()
      reads this
    {
      && IdTable(users, UserKey, nextUserId)
      && IdTable(families, FamilyKey, nextFamilyId)
      && KeysUnique(calendars, CalendarKey)
      && IdTable(lists, ListKey, nextListId)
      && IdTable(items, ItemKey, nextItemId)
      && IdTable(blames, BlameKey, nextBlameId)
      && KeysUnique(users, UserEmail)
      && KeysUnique(families, FamilyCode)
      && (forall i :: 0 <= i < |families| ==> NoDuplicates(families[i].users))
    }

    constructor ()
      ensures Valid()
      ensures users == [] && families == [] && calendars == [] && lists == [] && items == [] && blames == []
    {
      users, families, calendars, lists, items, blames := [], [], [], [], [], [];
      nextUserId, nextFamilyId, nextListId, nextItemId, nextBlameId := 1, 1, 1, 1, 1;
    }

    // ---- users ----

    function GetUser(userId: int): (r: Option<User>)
      reads this
      ensures r.Some? ==> r.value in users && r.value.id == userId
      ensures r.None? <==> forall i :: 0 <= i < |users| ==> users[i].id != userId
    {
      Lookup(users, (u: User) => u.id == userId)
    }

    function GetUserByEmail(email: string): (r: Option<User>)
      reads this
      ensures r.Some? ==> r.value in users && r.value.email == email
      ensures r.None? <==> forall i :: 0 <= i < |users| ==> users[i].email != email
    {
      Lookup(users, (u: User) => u.email == email)
    }

    /** Usernames are not unique: this is the first user with that name. */
    function GetUserByUsername(username: string): (r: Option<User>)
      reads this
      ensures r.Some? ==> exists k :: 0 <= k < |users| && users[k] == r.value && users[k].username == username
                                       && forall j :: 0 <= j < k ==> users[j].username != username
      ensures r.None? <==> forall i :: 0 <= i < |users| ==> users[i].username != username
    {
      Lookup(users, (u: User) => u.username == username)
    }

    function GetUsers(skip: nat, limit: nat): (r: seq<User>)
      reads this
      ensures |r| == if skip >= |users| then 0 else if |users| - skip < limit then |users| - skip else limit
      ensures forall i :: 0 <= i < |r| ==> skip + i < |users| && r[i] == users[skip + i]
    {
      Window(users, skip, limit)
    }

    /** Inserts a user, never an administrator. The unique index on
        `email` rejects a second user with the same email. */
    method CreateUser(input: UserInput, hashedPassword: string) returns (r: Result<User, DbError>)
      requires Valid()
      modifies this`users, this`nextUserId
      ensures Valid()
      ensures r.Failure? <==> exists i :: 0 <= i < |old(users)| && old(users)[i].email == input.email
      ensures r.Failure? ==> users == old(users) && nextUserId == old(nextUserId)
      ensures r.Success? ==> && r.value == User(old(nextUserId), input.email, input.username, hashedPassword, false,
                                                input.nombre, input.direccion, input.telefono)
                             && !r.value.isAdmin
                             && users == old(users) + [r.value]
                             && nextUserId == old(nextUserId) + 1
    {
      if GetUserByEmail(input.email).Some? {
        return Failure(IntegrityError("Duplicate entry for key 'email'"));
      }
      var u := User(nextUserId, input.email, input.username, hashedPassword, false,
                    input.nombre, input.direccion, input.telefono);
      AppendRow(users, UserKey, nextUserId, u);
      forall i, j | 0 <= i < j < |users + [u]| ensures UserEmail((users + [u])[i]) != UserEmail((users + [u])[j]) {
        assert (users + [u])[i] == users[i];
      }
      users := users + [u];
      nextUserId := nextUserId + 1;
      r := Success(u);
    }

    /** `None` stands for the source's `False`: no user with that username,
        or the password does not match the first such user's hash. */
    function AuthenticateUser(username: string, password: string,
                              verifyPassword: (string, string) -> bool): (r: Option<User>)
      reads this
      ensures (forall i :: 0 <= i < |users| ==> users[i].username != username) ==> r.None?
      ensures r.Some? ==> r.value in users && r.value.username == username
                          && verifyPassword(password, r.value.hashedPassword)
      ensures forall k :: 0 <= k < |users| && users[k].username == username
                          && (forall j :: 0 <= j < k ==> users[j].username != username) ==>
                          && (r.Some? <==> verifyPassword(password, users[k].hashedPassword))
                          && (r.Some? ==> r.value == users[k])
    {
      match GetUserByUsername(username)
      case None => None
      case Some(u) => if verifyPassword(password, u.hashedPassword) then Some(u) else None
    }

    // ---- shopping lists ----

    function GetList(listId: int): (r: Option<ShoppingList>)
      reads this
      ensures r.Some? ==> r.value in lists && r.value.id == listId
      ensures r.None? <==> forall i :: 0 <= i < |lists| ==> lists[i].id != listId
    {
      Lookup(lists, (l: ShoppingList) => l.id == listId)
    }

    function GetListsByCalendar(calendarId: int): (r: seq<ShoppingList>)
      reads this
      ensures forall i :: 0 <= i < |r| ==> r[i] in lists && r[i].calendarId.Some? && r[i].calendarId.value == calendarId
      ensures forall i :: 0 <= i < |lists| && lists[i].calendarId.Some? && lists[i].calendarId.value == calendarId
                          ==> lists[i] in r
      ensures multiset(r) <= multiset(lists) && Subsequence(r, lists)
    {
      Filter(lists, (l: ShoppingList) => l.calendarId.Some? && l.calendarId.value == calendarId)
    }

    function GetListsByUser(userId: int): (r: seq<ShoppingList>)
      reads this
      ensures forall i :: 0 <= i < |r| ==> r[i] in lists && r[i].ownerId.Some? && r[i].ownerId.value == userId
      ensures forall i :: 0 <= i < |lists| && lists[i].ownerId.Some? && lists[i].ownerId.value == userId
                          ==> lists[i] in r
      ensures multiset(r) <= multiset(lists) && Subsequence(r, lists)
    {
      Filter(lists, (l: ShoppingList) => l.ownerId.Some? && l.ownerId.value == userId)
    }

    /** In a well-formed database neither list query returns a list twice. */
    lemma ListQueriesGiveEachListOnce(calendarId: int, userId: int)
      requires Valid()
      ensures NoDuplicates(GetListsByCalendar(calendarId))
      ensures NoDuplicates(GetListsByUser(userId))
    {
      KeysUniqueDistinct(lists, ListKey);
      FilterOfDistinct(lists, (l: ShoppingList) => l.calendarId.Some? && l.calendarId.value == calendarId);
      FilterOfDistinct(lists, (l: ShoppingList) => l.ownerId.Some? && l.ownerId.value == userId);
    }

    /** `db.add(models.Blame(...))`: one new ledger entry at the end. */
    method AppendBlame(userId: nat, action: string, entityType: EntityType, entityId: int, detalles: string)
      returns (b: Blame)
      requires Valid()
      modifies this`blames, this`nextBlameId
      ensures Valid()
      ensures b == Blame(old(nextBlameId), Some(userId), action, entityType, entityId, Some(detalles))
      ensures blames == old(blames) + [b] && nextBlameId == old(nextBlameId) + 1
    {
      b := Blame(nextBlameId, Some(userId), action, entityType, entityId, Some(detalles));
      AppendRow(blames, BlameKey, nextBlameId, b);
      blames := blames + [b];
      nextBlameId := nextBlameId + 1;
    }

    /** Stores the list with the given owner, status 'pendiente' and no
        budget, and records one "create" entry for it. */
    method CreateShoppingList(data: ListInput, ownerId: nat) returns (l: ShoppingList)
      requires Valid()
      modifies this`lists, this`nextListId, this`blames, this`nextBlameId
      ensures Valid()
      ensures l == ShoppingList(old(nextListId), data.name, data.notas, data.comentarios,
                                DefaultListStatus, None, data.calendarId, Some(ownerId))
      ensures lists == old(lists) + [l] && nextListId == old(nextListId) + 1
      ensures blames == old(blames) + [Blame(old(nextBlameId), Some(ownerId), CreateAction, Lista, l.id,
                                             Some(ListCreatedDetails(data.name)))]
      ensures nextBlameId == old(nextBlameId) + 1
    {
      l := ShoppingList(nextListId, data.name, data.notas, data.comentarios,
                        DefaultListStatus, None, data.calendarId, Some(ownerId));
      AppendRow(lists, ListKey, nextListId, l);
      lists := lists + [l];
      nextListId := nextListId + 1;
      var _ := AppendBlame(ownerId, CreateAction, Lista, l.id, ListCreatedDetails(data.name));
    }

    // ---- list items ----

    function ItemIndex(itemId: int): (r: Option<nat>)
      reads this
      ensures r.Some? ==> r.value < |items| && items[r.value].id == itemId
      ensures r.None? <==> forall i :: 0 <= i < |items| ==> items[i].id != itemId
    {
      FindFirst(items, (it: ListItem) => it.id == itemId)
    }

    function GetItem(itemId: int): (r: Option<ListItem>)
      reads this
      ensures r.Some? ==> r.value in items && r.value.id == itemId
      ensures r.None? <==> forall i :: 0 <= i < |items| ==> items[i].id != itemId
    {
      match ItemIndex(itemId)
      case None => None
      case Some(k) => Some(items[k])
    }

    /** The new item is always 'pendiente' and created by the acting user,
        whatever the input; one "create" entry records it. */
    method CreateListItem(input: ItemInput, userId: nat) returns (it: ListItem)
      requires Valid()
      modifies this`items, this`nextItemId, this`blames, this`nextBlameId
      ensures Valid()
      ensures it == ListItem(old(nextItemId), Some(input.listId), None, input.nombre, input.comentario,
                             Some(input.cantidad), None, Pendiente, None, None, Some(userId), None)
      ensures items == old(items) + [it] && nextItemId == old(nextItemId) + 1
      ensures blames == old(blames) + [Blame(old(nextBlameId), Some(userId), CreateAction, Item, it.id,
                                             Some(ItemCreatedDetails(input.nombre)))]
      ensures nextBlameId == old(nextBlameId) + 1
    {
      it := ListItem(nextItemId, Some(input.listId), None, input.nombre, input.comentario,
                     Some(input.cantidad), None, Pendiente, None, None, Some(userId), None);
      AppendRow(items, ItemKey, nextItemId, it);
      items := items + [it];
      nextItemId := nextItemId + 1;
      var _ := AppendBlame(userId, CreateAction, Item, it.id, ItemCreatedDetails(input.nombre));
    }

    /** On an existing item: sets the status and records one "update" entry
        naming the old and the new status, even when they are equal.
        On a missing id: returns `None` and changes nothing. */
    method UpdateItemStatus(itemId: int, status: ItemStatus, userId: nat) returns (r: Option<ListItem>)
      requires Valid()
      modifies this`items, this`blames, this`nextBlameId
      ensures Valid()
      ensures old(ItemIndex(itemId)).None? ==>
                r.None? && items == old(items) && blames == old(blames) && nextBlameId == old(nextBlameId)
      ensures old(ItemIndex(itemId)).Some? ==>
                var k := old(ItemIndex(itemId)).value;
                var before := old(items)[k];
                && r == Some(before.(status := status))
                && items == old(items)[k := before.(status := status)]
                && blames == old(blames) + [Blame(old(nextBlameId), Some(userId), UpdateAction, Item, itemId,
                                                  Some(StatusChangeDetails(before.nombre, before.status, status)))]
                && nextBlameId == old(nextBlameId) + 1
    {
      match ItemIndex(itemId)
      case None =>
        r := None;
      case Some(k) =>
        var before := items[k];
        var after := before.(status := status);
        ReplaceRow(items, ItemKey, nextItemId, k, after);
        items := items[k := after];
        var _ := AppendBlame(userId, UpdateAction, Item, itemId, StatusChangeDetails(before.nombre, before.status, status));
        r := Some(after);
    }

    /** On an existing item: records one "delete" entry, then removes that
        item and no other; the entry stays in the ledger. On a missing id:
        returns `None` and changes nothing. */
    method DeleteItem(itemId: int, userId: nat) returns (r: Option<ListItem>)
      requires Valid()
      modifies this`items, this`blames, this`nextBlameId
      ensures Valid()
      ensures old(ItemIndex(itemId)).None? ==>
                r.None? && items == old(items) && blames == old(blames) && nextBlameId == old(nextBlameId)
      ensures old(ItemIndex(itemId)).Some? ==>
                var k := old(ItemIndex(itemId)).value;
                && r == Some(old(items)[k])
                && items == old(items)[..k] + old(items)[k + 1..]
                && ItemIndex(itemId).None?
                && blames == old(blames) + [Blame(old(nextBlameId), Some(userId), DeleteAction, Item, itemId,
                                                  Some(ItemDeletedDetails(old(items)[k].nombre)))]
                && nextBlameId == old(nextBlameId) + 1
    {
      match ItemIndex(itemId)
      case None =>
        r := None;
      case Some(k) =>
        var victim := items[k];
        var _ := AppendBlame(userId, DeleteAction, Item, itemId, ItemDeletedDetails(victim.nombre));
        RemoveRow(items, ItemKey, nextItemId, k);
        items := items[..k] + items[k + 1..];
        r := Some(victim);
    }

    // ---- direct ledger entries ----

    /** Appends one entry about an item, without checking that it exists. */
    method CreateBlameForItem(itemId: int, userId: nat, detalles: string, action: string := DefaultBlameAction)
      returns (b: Blame)
      requires Valid()
      modifies this`blames, this`nextBlameId
      ensures Valid()
      ensures b == Blame(old(nextBlameId), Some(userId), action, Item, itemId, Some(detalles))
      ensures blames == old(blames) + [b] && nextBlameId == old(nextBlameId) + 1
    {
      b := AppendBlame(userId, action, Item, itemId, detalles);
    }

    /** Appends one entry about a list, without checking that it exists. */
    method CreateBlameForList(listId: int, userId: nat, detalles: string, action: string := DefaultBlameAction)
      returns (b: Blame)
      requires Valid()
      modifies this`blames, this`nextBlameId
      ensures Valid()
      ensures b == Blame(old(nextBlameId), Some(userId), action, Lista, listId, Some(detalles))
      ensures blames == old(blames) + [b] && nextBlameId == old(nextBlameId) + 1
    {
      b := AppendBlame(userId, action, Lista, listId, detalles);
    }
  }
}
