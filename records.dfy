/**
 * The records the admin panel and the auth module keep in the browser's key-value store,
 * with optional fields made explicit.
 */
module Records {
  import opened Wrappers

  /** Milliseconds since the epoch; the ISO-8601 text the code stores is not modelled. */
  type Timestamp = int

  /** An amount of money in cents; the code keeps floating-point reais. */
  type Cents = int

  /** One entry of an order's audit trail. */
  datatype StatusEntry = StatusEntry(status: string, timestamp: Timestamp, description: string)

  /** The customer snapshot copied into an order when it is placed. */
  datatype Customer = Customer(
    name: string, phone: string, address: string, number: string,
    complement: string, city: string)

  /** One line of an order. */
  datatype LineItem = LineItem(
    name: string, quantity: int, quantityType: string, unitCount: int, totalPrice: Cents)

  /**
   * An order. `status` is kept as text, as the code does, so that statuses outside the
   * five known ones can be represented.
   */
  datatype Order = Order(
    id: string,
    orderNumber: string,
    customer: Customer,
    items: seq<LineItem>,
    total: Cents,
    paymentMethod: string,
    isDelivery: bool,
    status: string,
    statusHistory: seq<StatusEntry>,
    rejectionReason: Option<string>,
    createdAt: Timestamp)

  /** A catalog item: built-in items have ids of at most 26, custom ones the clock at creation. */
  datatype CatalogItem = CatalogItem(
    id: int, name: string, price: Cents, category: string,
    description: string, isPortioned: bool)

  /** An account of the admin panel. */
  datatype AdminAccount = AdminAccount(
    id: string, username: string, password: string, role: string, createdAt: Timestamp)

  /** A customer account. */
  datatype User = User(
    id: string, name: string, phone: string, email: string, address: string,
    number: string, complement: string, city: string, password: string,
    isAdmin: bool, createdAt: Timestamp)

  /** The configuration object: numeric fields by name (only `deliveryFee` is used here). */
  type AppConfig = map<string, Cents>

  /** A value held under one key of the store. `Opaque` stands for keys other modules own. */
  datatype Value =
    | OrderList(orders: seq<Order>)
    | ItemList(items: seq<CatalogItem>)
    | UserList(users: seq<User>)
    | AdminList(admins: seq<AdminAccount>)
    | ConfigRecord(config: AppConfig)
    | UserRecord(user: User)
    | AdminRecord(admin: AdminAccount)
    | Opaque(text: string)
}
