# Shopping list backend: verified model of its core

This project models, in Dafny, the core of a family shopping-list web
service (a FastAPI application over a SQL database). It covers five parts:

- **The database layer** (`crud.py`): users, shopping lists, list items and
  the audit ledger ("blames").
  - Every change to a list or an item appends exactly one ledger entry.
  - Nothing else changes, and entries are never rewritten or removed.
  - Operations on an id that does not exist return nothing and change
    nothing.
- **The live-update connection registry** (`websockets.py`).
  - A map from family id to the sockets subscribed to that family.
  - Connect, disconnect, and a broadcast that unregisters every socket
    whose send fails.
  - No family is ever listed with an empty socket list.
- **The authorization rules of the HTTP handlers** (`main.py`):
  - family membership (`get_family_for_user`);
  - who may act on a list and its items;
  - which family a change is announced to.
- **Family membership handlers and list handlers** (`main.py`):
  - remove a member, the administrator's add and remove, join by code;
  - create a family under a fresh random invitation code;
  - create a shopping list, delete an item;
  - pagination of a calendar's lists;
  - the distinct product filter values.
- **Image extraction from a search provider's reply** (`main.py`):
  - walking a decoded JSON value along configured dotted paths;
  - scanning HTML start/end tags for elements nested along a chain of CSS
    classes.

Each database table is a sequence of rows in primary-key order with an
autoincrement counter. The class `Crud.Database` holds the tables. Its
methods change them in place and state their whole new state. Its ghost
`Valid()` is the set of table constraints: primary keys, the unique
`email` and family `code` indexes, and no user twice in one family.
Handlers that change the database are methods over that class. Handlers
that only decide something are functions. The Python string operations
the extractor relies on (`split`, `strip`, `in`) are defined in `PyStr`
with their own properties.

Modules and files:

| file | module | models |
|---|---|---|
| models.dfy | Models | entity datatypes, column enumerations |
| queries.dfy | Queries | `.filter().first()`, `.all()`, `offset/limit`, `list.remove` |
| crud.dfy | Crud | `crud.py` |
| websockets.dfy | Websockets | `websockets.py` |
| access.dfy | Access | membership and list access rules of `main.py` |
| families.dfy | Families | family handlers of `main.py` |
| endpoints.dfy | Endpoints | list/item handlers, pagination, filters of `main.py` |
| pystr.dfy | PyStr | `str.split`, `str.strip`, `in` |
| extraction.dfy | ImageExtraction | `extract_images_from_client_response` |

## Model

| member | source | states |
|---|---|---|
| Models.ParseItemStatus | backend/app/models.py:122 | a text is an item status exactly when it is the spelling of one, and it parses back to that status |
| Models.ParseListStatus | backend/app/models.py:67 | the same for the list status enumeration |
| Models.ParseEntityType | backend/app/models.py:150-169 | the same for the ledger's `lista` / `item` entity types |
| Queries.RemoveFirstMultiset | backend/app/main.py:119 | `list.remove(x)` takes exactly one copy of `x` away and keeps everything else |
| Queries.RemoveFirstMembers | backend/app/main.py:119 | on a duplicate-free member list, removing `x` leaves exactly the other members |
| Queries.RemoveFirstKeepsNoDuplicates | backend/app/main.py:119 | removing a member keeps the list duplicate-free |
| Queries.AppendFresh | backend/app/main.py:345 | appending a user who is not yet a member keeps the list duplicate-free |
| Queries.FindFirst | backend/app/crud.py:6-7 | `.filter(p).first()` by position: the first row satisfying `p`, none exactly when no row does |
| Queries.Lookup | backend/app/crud.py:9-13 | `.filter(p).first()`: the first row satisfying `p`, none exactly when no row does |
| Queries.Filter | backend/app/crud.py:46-50 | `.filter(p).all()`: only rows satisfying `p`, every such row, no row more often than the table holds it, and in table order (`Subsequence`) |
| Queries.FilterCounts | backend/app/crud.py:46-50 | each value appears exactly as often as in the table when it satisfies `p`, and not at all otherwise |
| Queries.FilterOfDistinct | backend/app/crud.py:46-50 | filtering a duplicate-free table gives a duplicate-free result |
| Queries.Window | backend/app/crud.py:15-16 | `.offset(skip).limit(limit)`: the rows from `skip` on, as many as the limit allows |
| Queries.RemoveFirst | backend/app/main.py:119 | `list.remove(x)`: unchanged when `x` is absent, one element shorter otherwise |
| Crud.Database.GetUser | backend/app/crud.py:6-7 | the result is a user with that id; none exactly when no user has it |
| Crud.Database.GetUserByEmail | backend/app/crud.py:9-10 | the result has that email; none exactly when no user has it |
| Crud.Database.GetUserByUsername | backend/app/crud.py:12-13 | the first user with that username; none exactly when there is no such user |
| Crud.Database.GetUsers | backend/app/crud.py:15-16 | exactly `limit` users, or every user from position `skip` on when fewer remain; the ones at positions `skip`, `skip+1`, … in order |
| Crud.Database.CreateUser | backend/app/crud.py:18-32 | fails exactly when the email is taken, then changes nothing; otherwise appends one non-admin user with the next id and the input fields; table constraints kept |
| Crud.Database.AuthenticateUser | backend/app/crud.py:34-40 | nothing when no user has the name; otherwise only the first user with that name is tried: the result is that user exactly when the password matches its hash, and nothing otherwise |
| Crud.Database.GetList | backend/app/crud.py:43-44 | a list with that id; none exactly when no list has it |
| Crud.Database.GetListsByCalendar | backend/app/crud.py:46-47 | exactly the lists of that calendar, in table order, none more often than stored |
| Crud.Database.GetListsByUser | backend/app/crud.py:49-50 | exactly the lists owned by that user, in table order, none more often than stored |
| Crud.Database.ListQueriesGiveEachListOnce | backend/app/crud.py:46-50 | in a well-formed database (unique list ids) neither query returns a list twice |
| Crud.Database.CreateShoppingList | backend/app/crud.py:52-68 | appends the list (status `pendiente`, no budget, caller as owner) and exactly one `create` entry for it; constraints kept |
| Crud.Database.AppendBlame | backend/app/crud.py:134-143 | appends one ledger entry with the next id, the caller, the action, the entity and the details; earlier entries untouched |
| Crud.Database.GetItem | backend/app/crud.py:71-72 | an item with that id; none exactly when no item has it |
| Crud.Database.CreateListItem | backend/app/crud.py:75-96 | appends the item with status `pendiente`, created by the caller, and exactly one `create` entry; constraints kept |
| Crud.Database.UpdateItemStatus | backend/app/crud.py:98-115 | missing id: nothing returned, nothing changed; otherwise only that item's status changes and one `update` entry names the old and new status |
| Crud.Database.DeleteItem | backend/app/crud.py:117-131 | missing id: nothing returned, nothing changed; otherwise exactly that item is removed, no item keeps the id, and one `delete` entry is appended |
| Crud.Database.CreateBlameForItem | backend/app/crud.py:133-144 | appends exactly one entry about the item, whether or not the item exists |
| Crud.Database.CreateBlameForList | backend/app/crud.py:146-157 | appends exactly one entry about the list, whether or not the list exists |
| Websockets.Added | backend/app/websockets.py:14-16 | the family's list gains the socket at its end; every other family is unchanged; no empty list appears |
| Websockets.Dropped | backend/app/websockets.py:20-24 | the family is listed afterwards only with a non-empty list |
| Websockets.DroppedMembers | backend/app/websockets.py:21-22 | unregistering takes exactly one copy of the socket out of its family |
| Websockets.DroppedOthers | backend/app/websockets.py:19-25 | other families are untouched |
| Websockets.DroppedKeepsInvariant | backend/app/websockets.py:23-24 | no family is left with an empty list |
| Websockets.Delivered | backend/app/websockets.py:30-32 | a socket is delivered to exactly when it sits at an attempted position whose send succeeded |
| Websockets.Failed | backend/app/websockets.py:30-35 | a socket failed exactly when it sits at an attempted position whose send raised |
| Websockets.AfterAttempts | backend/app/websockets.py:27-35 | a broadcast never adds a family, and a broadcast to a family that is not listed changes nothing |
| Websockets.DeliveredAndFailedSplit | backend/app/websockets.py:30-35 | every attempted socket is either delivered to or failed, once each |
| Websockets.AfterAttemptsMembers | backend/app/websockets.py:30-35 | the attempts remove exactly the failed sockets from the family |
| Websockets.AfterAttemptsOthers | backend/app/websockets.py:27-35 | a broadcast leaves every other family as it was |
| Websockets.AfterAttemptsKeepsInvariant | backend/app/websockets.py:27-35 | a broadcast keeps the registry free of empty lists |
| Websockets.BroadcastLeavesDelivered | backend/app/websockets.py:27-35 | after a broadcast the family holds exactly the sockets that received the message |
| Websockets.ConnectionManager.Connect | backend/app/websockets.py:12-17 | the registry becomes `Added`; invariant kept |
| Websockets.ConnectionManager.Disconnect | backend/app/websockets.py:19-25 | the registry becomes `Dropped`; invariant kept |
| Websockets.ConnectionManager.BroadcastToFamily | backend/app/websockets.py:27-35 | sends to a snapshot in order; the family keeps exactly the delivered sockets, other families unchanged, invariant kept |
| Access.FamilyOfUser | backend/app/main.py:92-96 | found exactly when the user belongs to the family; the result is one of the user's families with that id |
| Access.GetFamilyForUser | backend/app/main.py:92-96 | succeeds exactly when the user belongs, with the first matching family; otherwise 403 |
| Access.ListAccess | backend/app/main.py:587-592 | for a list in a calendar: allowed exactly for members of the calendar's family (else 403); otherwise allowed exactly for the list's owner (else 403 "Not enough permissions"); the same rule guards update (649-652), delete (683-686) and list update (784-787) |
| Access.CreateTargetFamily | backend/app/main.py:594-597 | the calendar's family id when it is truthy; otherwise the user's first family, or 400 when the user has none |
| Access.BroadcastTarget | backend/app/main.py:688-690 | the family a deletion is announced to: the target creation would use, none exactly when creation would fail for lack of a family or the id is falsy |
| Access.CreateTargetIsUsersFamily | backend/app/main.py:587-597 | once access is granted, the announced family is one the user belongs to, and the 400 happens exactly for a calendar-less list of a user with no family |
| Families.FamilyIndex | backend/app/main.py:99 | the position of the family with that id; none exactly when there is none |
| Families.FamilyIndexByCode | backend/app/main.py:511 | the position of a family with that code; none exactly when there is none |
| Families.OwnedFamily | backend/app/main.py:98-104 | succeeds exactly for an existing family owned by the caller; otherwise 404 or 403 as the source orders them |
| Families.MembersChangeKeepsValid | backend/app/main.py:119 | replacing one family's member list by a duplicate-free one keeps every table constraint |
| Families.RemoveFamilyMember | backend/app/main.py:107-123 | guard errors first, then 404 for a non-member, 400 for the owner; a member who is not the owner is removed: success, exactly that user leaves, and nothing else changes |
| Families.AdminAddFamilyMember | backend/app/main.py:334-349 | 403/404/404/400 in source order; on success the user is appended once; failures change nothing |
| Families.AdminRemoveFamilyMember | backend/app/main.py:351-368 | 403/404/404/400/400 in source order; a member who is not the owner is removed: success, and exactly that user leaves |
| Families.JoinFamily | backend/app/main.py:509-521 | 404 for an unknown code, 400 for a member; otherwise the caller is appended once |
| Families.PickFreeCode | backend/app/main.py:493-495 | the result is the first draw no family has |
| Families.CreateFamily | backend/app/main.py:491-507 | appends a family with a well-formed code no family had, the first free draw, owned by the caller with the caller as only member; constraints kept |
| Endpoints.CalendarById | backend/app/main.py:715 | a calendar with that id; none exactly when none has it |
| Endpoints.ListOfItem | backend/app/main.py:679 | the item's list; none exactly when the item has no list id or it names no list |
| Endpoints.CalendarOfList | backend/app/main.py:683 | the list's calendar; none exactly when it has no calendar id or it names no calendar |
| Endpoints.CreateListCheck | backend/app/main.py:714-718 | fails only with 404 or 403; 404 exactly for a truthy calendar id naming no calendar; passes exactly for a falsy id or a member of the calendar's family |
| Endpoints.CreateShoppingListEndpoint | backend/app/main.py:708-720 | a failed check changes nothing and returns its error; otherwise the list and one `create` entry are appended and both id counters advance by one |
| Endpoints.CreatorMayAccessNewList | backend/app/main.py:708-720 | with calendar ids from 1, whoever could create a list passes the access rule for it afterwards |
| Endpoints.DeleteItemCheck | backend/app/main.py:675-690 | 404 for a missing item or list, then the list access rule's own error; on success the family to announce to is `BroadcastTarget` of the list's calendar, one the user belongs to |
| Endpoints.DeleteItemEndpoint | backend/app/main.py:668-704 | a failed check changes nothing; otherwise exactly that item is removed, one `delete` entry appended, and the family to tell returned |
| Endpoints.ListsPaging | backend/app/main.py:737-739 | unpaged exactly when both dates are given, from row 0; otherwise `size` rows starting where page `page` starts |
| Endpoints.ListsPageMeta | backend/app/main.py:750-755 | reports page 1 of size `total` when unpaged, the requested page and size otherwise |
| Endpoints.Select | backend/app/main.py:741-748 | at most the rows, each one the row at `skip` plus its position |
| Endpoints.UnpagedIsSinglePage | backend/app/main.py:737-755 | an unpaged answer is all rows, and equals page 1 at the size it reports |
| Endpoints.RowOnItsPage | backend/app/main.py:737-739 | row `i` is entry `i % size` of page `i / size + 1` |
| Endpoints.PageIsSlice | backend/app/main.py:737-739 | page `n` is the slice from `(n-1)*size` of `size` rows, cut at the end |
| Endpoints.PagesTile | backend/app/main.py:737-739 | reading pages 1..n yields the first `n*size` rows in order, none skipped or repeated |
| Endpoints.DistinctPresent | backend/app/main.py:445-446 | each truthy value of the column exactly once, and only those |
| PyStr.SplitOn | backend/app/main.py:1098 | at least one piece, none holding the separator |
| PyStr.JoinSplitOn | backend/app/main.py:1098 | joining the pieces with the separator gives the string back |
| PyStr.SplitOnJoin | backend/app/main.py:1098 | splitting joined separator-free pieces gives them back |
| PyStr.Words | backend/app/main.py:1145 | every word is non-empty and holds no whitespace; `WordsAreNonEmptyPieces` pins which words they are |
| PyStr.WordsAreNonEmptyPieces | backend/app/main.py:1145 | `split()` is the input cut at every whitespace character with the empty pieces dropped, so the words are exactly its maximal non-whitespace runs, in order |
| PyStr.WordsOfJoined | backend/app/main.py:1145 | words joined by single spaces split back into the same words |
| PyStr.Leading | backend/app/main.py:1138 | how many leading characters a strip removes: all of those are stripped characters, and the next one is not |
| PyStr.Trailing | backend/app/main.py:1138 | the same count at the end of the string |
| PyStr.LStrip | backend/app/main.py:1138 | a suffix of the input; everything cut is stripped; the first kept character is not |
| PyStr.RStrip | backend/app/main.py:1138 | a prefix of the input; everything cut is stripped; the last kept character is not |
| PyStr.StripChars | backend/app/main.py:1138 | no longer than the input; neither end is a stripped character |
| PyStr.StripCharsIsInfix | backend/app/main.py:1138 | the result is the run of the input that starts where `lstrip` stops |
| PyStr.StripCharsRemovesOnlyStripped | backend/app/main.py:1138 | what is cut at either end consists of stripped characters only |
| PyStr.StripCharsIdempotent | backend/app/main.py:1158 | stripping twice strips nothing more |
| PyStr.Strip | backend/app/main.py:1158 | neither end of the result is whitespace |
| ImageExtraction.Step | backend/app/main.py:1099-1100 | a dict is replaced by its value under the key, or by the default; any other value is kept |
| ImageExtraction.WalkAppend | backend/app/main.py:1098-1100 | walking a path is walking its first part, then the rest |
| ImageExtraction.WalkStaysOffObjects | backend/app/main.py:1099 | a walk that meets anything but a dict stays there |
| ImageExtraction.PathParts | backend/app/main.py:1097-1098 | a falsy path has no parts; a truthy one at least one, joining back to the path |
| ImageExtraction.WalkPath | backend/app/main.py:1097-1100 | the loop's value is the walk along the path's parts |
| ImageExtraction.EntryFor | backend/app/main.py:1106-1127 | an entry exactly for a dict item whose preview and large paths both lead to non-empty strings; it carries the item's position and those two strings |
| ImageExtraction.JsonEntries | backend/app/main.py:1105-1127 | every entry is the one its item yields at its own position, in increasing position order |
| ImageExtraction.JsonEntriesComplete | backend/app/main.py:1105-1127 | no item that yields an entry is skipped |
| ImageExtraction.JsonEntriesHaveUrls | backend/app/main.py:1122 | every entry carries two non-empty URLs |
| ImageExtraction.JsonExtraction | backend/app/main.py:1087-1103 | nothing for an undecodable reply or a non-list target; otherwise the entries of the list |
| ImageExtraction.ListPathIgnoredOffObjects | backend/app/main.py:1096-1100 | a reply that is not a dict is scanned as it is, whatever the list path |
| ImageExtraction.ExtractFromJson | backend/app/main.py:1087-1128 | the loop yields exactly the JSON extraction |
| ImageExtraction.AttrValue | backend/app/main.py:1144 | absent exactly when no attribute has the name |
| ImageExtraction.AttrValueIsLast | backend/app/main.py:1144 | when several attributes share the name, the last one's value is taken |
| ImageExtraction.Selectors | backend/app/main.py:1138 | no more selectors than whitespace-separated pieces |
| ImageExtraction.SelectorPerPiece | backend/app/main.py:1138 | no piece of `split()` is blank, so the selectors are exactly the pieces with dots stripped, in order |
| ImageExtraction.AllUndotted | backend/app/main.py:1138 | one entry per piece, each that piece with dots stripped from both ends |
| ImageExtraction.SelectorsOfWords | backend/app/main.py:1138 | exactly one selector per piece of the selector string |
| ImageExtraction.Clean | backend/app/main.py:1158 | no longer than the value; neither end is a single quote |
| ImageExtraction.ClassesOf | backend/app/main.py:1145 | fails exactly for a class attribute without a value; no class attribute means no classes; a valued class attribute gives its words |
| ImageExtraction.RecordedValue | backend/app/main.py:1151-1159 | a value is recorded exactly when the attribute has a value that is non-empty once rewritten and cleaned, and then it is that cleaned value, with no quote at either end |
| ImageExtraction.Recorded | backend/app/main.py:1151-1159 | the configured attribute's value, rewritten and cleaned, exactly when that is non-empty; non-empty with no single quote at either end |
| ImageExtraction.Pushed | backend/app/main.py:1146-1149 | the tag is pushed exactly when the class list holds the selector at the current depth; the stack never outgrows the chain |
| ImageExtraction.StartStep | backend/app/main.py:1143-1159 | fails exactly for a valueless class; the stack is as pushed; at full depth with a recorded value that value is appended, otherwise the results are unchanged |
| ImageExtraction.EndStep | backend/app/main.py:1161-1163 | pops exactly when the tag is the one on top |
| ImageExtraction.FeedAll | backend/app/main.py:1166 | a stream fails exactly when one of its start tags has a class attribute without a value |
| ImageExtraction.StartStepKeepsGoodState | backend/app/main.py:1143-1159 | a start tag keeps the stack within the chain and every result clean |
| ImageExtraction.FeedAllKeepsGoodState | backend/app/main.py:1166 | a whole stream keeps that invariant |
| ImageExtraction.FeedAllExtendsResults | backend/app/main.py:1166 | results are only ever added to |
| ImageExtraction.SameNamedChildEndsMatch | backend/app/main.py:1161-1163 | matching goes by tag name only: a closed same-named sibling ends the outer match, and the inner element is missed |
| ImageExtraction.ImageTagParser.constructor | backend/app/main.py:1136-1141 | the selectors are those of the string; empty results and stack |
| ImageExtraction.ImageTagParser.HandleStartTag | backend/app/main.py:1143-1159 | the new state is the start step's, or unchanged with the failure |
| ImageExtraction.ImageTagParser.HandleEndTag | backend/app/main.py:1161-1163 | the stack becomes the end step's; results unchanged |
| ImageExtraction.ImageTagParser.Feed | backend/app/main.py:1166 | the state after the loop is the whole stream's, or the failure that stopped it |
| ImageExtraction.HtmlEntries | backend/app/main.py:1168-1171 | the first thirty results, numbered from 0, each its own preview and large URL |
| ImageExtraction.AttributeSetting | backend/app/main.py:1165 | the configured attribute when it is truthy, otherwise `src`; never empty |
| ImageExtraction.SelectorSetting | backend/app/main.py:1165 | the configured selector string, or the empty string when none is configured |
| ImageExtraction.ExtractImagesFromClientResponse | backend/app/main.py:1082-1171 | a `json` reply gives the JSON extraction; any other gives the HTML scan's first thirty results, or the scan's failure |
| ImageExtraction.HtmlEntriesAreCleanUrls | backend/app/main.py:1158-1171 | every HTML entry has equal, non-empty URLs with no single quote at either end |

## Left out

- I/O is outside the model:
  - the SQL engine beyond its tables, including foreign-key checks;
  - the commit, flush and refresh cycle;
  - timestamps (`created_at`, `list_for_date`) and the date filters of a calendar's lists.
- `update_item_endpoint`, `create_bulk_items_for_list`, `update_shopping_list` and `get_budget_details` are not part of this model.
  - They call `crud.update_item`, `crud.create_list_items_bulk`, `crud.update_shopping_list` and `crud.get_budget_details_for_list`.
  - None of these exists in `crud.py`.
  - The same access rule guards them, and `Access.ListAccess` models it.
- `create_item_for_list` passes `family_id` to `crud.create_list_item`, which takes no such parameter.
  - As written, the handler cannot store the item.
  - Only its decisions are modelled: the list access rule (`Access.ListAccess`) and the announced family (`Access.CreateTargetFamily`).
- `get_shopping_lists` calls `crud.get_lists_by_calendar` with paging arguments and expects a dictionary back, but `crud.py` takes only a calendar id.
  - The paging arithmetic and the row window are modelled (`Endpoints.ListsPaging`, `Endpoints.Select`).
  - The call itself is not.
- `crud.get_family` (called by the administrator's member handlers) is not in `crud.py`. It is modelled as a lookup by primary key (`Families.FamilyIndex`).
- Asynchrony and background tasks are not modelled.
  - Handlers return the family an item change is announced to instead of scheduling the broadcast.
  - The broadcast message payload and `websocket.accept()` are not modelled.
- `Websockets.ConnectionManager.BroadcastToFamily`: whether each send raises is an input (the set of failing attempt positions), since the network is outside the model.
- `Crud.Database.GetUserByEmail`, `Crud.Database.GetUserByUsername`, `Crud.Database.AuthenticateUser`, `Crud.Database.CreateUser`, `Families.FamilyIndexByCode`, `Families.JoinFamily` and `Families.CreateFamily`: the `==` of a SQL filter on a string column is modelled as exact string equality.
  - Under MySQL's default collation that comparison ignores case (and, depending on the collation, accents or trailing spaces), so the database can match rows the model does not.
  - The uniqueness of emails and family codes is stated under exact equality too.
- `Crud.Database.CreateUser`: password hashing is a library call, so the hash arrives as an input.
- `Crud.Database.AuthenticateUser`: password verification is a function parameter.
- `Crud.Database.GetUsers`: `skip` and `limit` are non-negative; a negative value, which the database rejects, is not modelled.
- `Crud.Database.UpdateItemStatus`: the request schema accepts any text as the status and `crud.py` assigns it unchecked. Only the enum column rejects an unknown text, when the transaction commits.
  - The model takes an `ItemStatus` value, so a status text outside the enum is not modelled.
  - `Models.ParseItemStatus` states which texts the column accepts.
- `Crud.Database.CreateListItem`: `cantidad` arrives as text and the database driver converts it to a float. The model receives the float.
- `Families.CreateFamily`: the random source is the sequence of codes it will draw.
  - It must eventually draw a free code.
  - The source loops until one is found, which terminates only with probability one.
- `Access.FamilyOfUser`: a user's families are the `user.families` relationship in the order it is loaded. That order is an input.
- `Endpoints.DistinctPresent`: `models.py` has no category or brand column on `Product`, so the property is stated over any column of optional strings.
  - The order of `list(set(...))` is Python's hash order.
  - The model keeps first occurrences instead, so only membership and uniqueness are stated.
- `Endpoints.Select`: a negative page or size gives a negative offset or limit, which the database rejects. The model requires both to be non-negative.
- `ImageExtraction.Rewritten`: `html.unescape` plus the `url(...)` regular expression is a function parameter (`styleUrl`).
- The JSON decoder and the HTML tokenizer are libraries.
  - The model starts from the decoded value (none when decoding fails) and from the stream of start and end tags.
  - The tokenizer lowercases names and reports a self-closing tag as a start tag followed by an end tag.
- `ImageExtraction.ExtractImagesFromClientResponse`: a class attribute without a value makes `None.split()` raise inside the parser. The model returns that as a failure instead of an exception.
