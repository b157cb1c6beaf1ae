/** Entity shapes of the shopping-list backend: one datatype per table,
    the column enumerations, and the optional-value wrappers used for
    nullable columns. Timestamps (`created_at`, `list_for_date`, ...) are
    not modelled. Float columns are carried as `Float` and never computed with. */
module Models {

  datatype Option<+T> = None | Some(value: T)

  datatype Result<+T, +E> = Success(value: T) | Failure(error: E)

  /** A SQL `Float` column: stored and compared, never used in arithmetic here. */
  type Float = real

  /** `ListItem.status`: the values of the `item_status` enumeration. */
  datatype ItemStatus = Pendiente | Comprado | YaNoSeNecesita

  /** `ShoppingList.status`: the values of the `list_status` enumeration. */
  datatype ListStatus = ListPendiente | Revisada | NoRevisada

  /** The two entity kinds the audit ledger refers to. */
  datatype EntityType = Lista | Item

  const DefaultItemStatus: ItemStatus := Pendiente
  const DefaultListStatus: ListStatus := ListPendiente

  function ItemStatusText(s: ItemStatus): string {
    match s
    case Pendiente => "pendiente"
    case Comprado => "comprado"
    case YaNoSeNecesita => "ya no se necesita"
  }

  /** The enumeration column accepts exactly the three spellings. */
  function ParseItemStatus(t: string): (r: Option<ItemStatus>)
    ensures forall s :: ItemStatusText(s) == t <==> r == Some(s)
  {
    if t == "pendiente" then Some(Pendiente)
    else if t == "comprado" then Some(Comprado)
    else if t == "ya no se necesita" then Some(YaNoSeNecesita)
    else None
  }

  function ListStatusText(s: ListStatus): string {
    match s
    case ListPendiente => "pendiente"
    case Revisada => "revisada"
    case NoRevisada => "no revisada"
  }

  function ParseListStatus(t: string): (r: Option<ListStatus>)
    ensures forall s :: ListStatusText(s) == t <==> r == Some(s)
  {
    if t == "pendiente" then Some(ListPendiente)
    else if t == "revisada" then Some(Revisada)
    else if t == "no revisada" then Some(NoRevisada)
    else None
  }

  /** The `entity_type` strings written to the ledger. */
  function EntityTypeText(e: EntityType): string {
    match e
    case Lista => "lista"
    case Item => "item"
  }

  function ParseEntityType(t: string): (r: Option<EntityType>)
    ensures forall e :: EntityTypeText(e) == t <==> r == Some(e)
  {
    if t == "lista" then Some(Lista)
    else if t == "item" then Some(Item)
    else None
  }

  /** `families`; `users` is this family's side of the `user_families`
      association, in association order. */
  datatype Family = Family(
    id: nat,
    code: string,
    nombre: string,
    notas: Option<string>,
    ownerId: Option<nat>,
    users: seq<nat>)

  datatype User = User(
    id: nat,
    email: string,
    username: string,
    hashedPassword: string,
    isAdmin: bool,
    nombre: Option<string>,
    direccion: Option<string>,
    telefono: Option<string>)

  datatype Calendar = Calendar(
    id: nat,
    nombre: string,
    notas: Option<string>,
    comentarios: Option<string>,
    familyId: Option<nat>,
    ownerId: Option<nat>)

  /** `calendarId` is a nullable foreign key: a list may have no calendar. */
  datatype ShoppingList = ShoppingList(
    id: nat,
    name: string,
    notas: Option<string>,
    comentarios: Option<string>,
    status: ListStatus,
    budget: Option<Float>,
    calendarId: Option<nat>,
    ownerId: Option<nat>)

  datatype Product = Product(
    id: nat,
    name: string,
    description: Option<string>,
    familyId: Option<nat>,
    imageUrl: Option<string>,
    lastPrice: Option<Float>)

  /** Both `productId` and `price` are required columns. */
  datatype PriceHistory = PriceHistory(id: nat, productId: nat, price: Float)

  /** `productId` is nullable: an item may have no product. */
  datatype ListItem = ListItem(
    id: nat,
    listId: Option<nat>,
    productId: Option<nat>,
    nombre: string,
    comentario: Option<string>,
    cantidad: Option<Float>,
    unit: Option<string>,
    status: ItemStatus,
    precioEstimado: Option<Float>,
    precioConfirmado: Option<Float>,
    creadoPorId: Option<nat>,
    imageUrl: Option<string>)

  /** An audit entry. `entityId` is a plain integer with no foreign key:
      an entry is not tied to a live row and survives its deletion. */
  datatype Blame = Blame(
    id: nat,
    userId: Option<nat>,
    action: string,
    entityType: EntityType,
    entityId: int,
    detalles: Option<string>)

  /** `userId` is required; `isRead` defaults to false. */
  datatype Notification = Notification(
    id: nat,
    userId: nat,
    familyId: Option<nat>,
    message: string,
    isRead: bool,
    createdById: Option<nat>,
    link: Option<string>)
}
