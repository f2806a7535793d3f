/**
 * The persistent key-value store (`Utils.storage`) as a map from key to value, the keys the
 * core uses, and the typed reads `get(key) || default` the code performs on them.
 */
module Storage {
  import opened Wrappers
  import opened Records

  const OrdersKey: string := "orders"
  const CustomMenuItemsKey: string := "customMenuItems"
  const UsersKey: string := "users"
  const AdminUsersKey: string := "adminUsers"
  const AppConfigKey: string := "appConfig"
  const CurrentUserKey: string := "currentUser"
  const CurrentAdminKey: string := "currentAdmin"

  /** Every key the core uses holds a value of its own kind. */
  predicate WellTyped(entries: map<string, Value>) {
    && (OrdersKey in entries ==> entries[OrdersKey].OrderList?)
    && (CustomMenuItemsKey in entries ==> entries[CustomMenuItemsKey].ItemList?)
    && (UsersKey in entries ==> entries[UsersKey].UserList?)
    && (AdminUsersKey in entries ==> entries[AdminUsersKey].AdminList?)
    && (AppConfigKey in entries ==> entries[AppConfigKey].ConfigRecord?)
    && (CurrentUserKey in entries ==> entries[CurrentUserKey].UserRecord?)
    && (CurrentAdminKey in entries ==> entries[CurrentAdminKey].AdminRecord?)
  }

  /** `get('orders') || []` */
  function OrdersOf(entries: map<string, Value>): seq<Order>
    requires WellTyped(entries)
  {
    if OrdersKey in entries then entries[OrdersKey].orders else []
  }

  /** `get('customMenuItems') || []` */
  function CustomItemsOf(entries: map<string, Value>): seq<CatalogItem>
    requires WellTyped(entries)
  {
    if CustomMenuItemsKey in entries then entries[CustomMenuItemsKey].items else []
  }

  /** `get('users') || []` */
  function UsersOf(entries: map<string, Value>): seq<User>
    requires WellTyped(entries)
  {
    if UsersKey in entries then entries[UsersKey].users else []
  }

  /** `get('adminUsers') || []` */
  function AdminsOf(entries: map<string, Value>): seq<AdminAccount>
    requires WellTyped(entries)
  {
    if AdminUsersKey in entries then entries[AdminUsersKey].admins else []
  }

  /** `get('appConfig') || {}` */
  function ConfigOf(entries: map<string, Value>): AppConfig
    requires WellTyped(entries)
  {
    if AppConfigKey in entries then entries[AppConfigKey].config else map[]
  }

  /** `get('currentUser')`, with `None` for the store's `null`. */
  function CurrentUserOf(entries: map<string, Value>): (r: Option<User>)
    requires WellTyped(entries)
    ensures r.Some? <==> CurrentUserKey in entries
    ensures r.Some? ==> entries[CurrentUserKey] == UserRecord(r.value)
  {
    if CurrentUserKey in entries then Some(entries[CurrentUserKey].user) else None
  }

  /** `get('currentAdmin')`, with `None` for the store's `null`. */
  function CurrentAdminOf(entries: map<string, Value>): (r: Option<AdminAccount>)
    requires WellTyped(entries)
    ensures r.Some? <==> CurrentAdminKey in entries
    ensures r.Some? ==> entries[CurrentAdminKey] == AdminRecord(r.value)
  {
    if CurrentAdminKey in entries then Some(entries[CurrentAdminKey].admin) else None
  }

  /** Writing a collection and reading it back yields what was written. */
  lemma WriteThenRead(entries: map<string, Value>, orders: seq<Order>, items: seq<CatalogItem>,
                      users: seq<User>, admins: seq<AdminAccount>, config: AppConfig)
    requires WellTyped(entries)
    ensures WellTyped(entries[OrdersKey := OrderList(orders)])
    ensures OrdersOf(entries[OrdersKey := OrderList(orders)]) == orders
    ensures CustomItemsOf(entries[CustomMenuItemsKey := ItemList(items)]) == items
    ensures UsersOf(entries[UsersKey := UserList(users)]) == users
    ensures AdminsOf(entries[AdminUsersKey := AdminList(admins)]) == admins
    ensures ConfigOf(entries[AppConfigKey := ConfigRecord(config)]) == config
  {
  }

  /** The store: one mutable map from key to value. */
  class Store {
    var entries: map<string, Value>

    predicate Valid()
      reads this
    {
      WellTyped(entries)
    }

    constructor ()
      ensures Valid() && entries == map[]
    {
      entries := map[];
    }

    /** `get(key)`: the stored value, `None` when the key is absent. */
    function Get(key: string): (r: Option<Value>)
      reads this
      ensures r.Some? <==> key in entries
      ensures r.Some? ==> r.value == entries[key]
    {
      if key in entries then Some(entries[key]) else None
    }

    /** `set(key, value)`: the value is visible to the next read; no other key changes. */
    method Set(key: string, value: Value)
      modifies this
      ensures entries == old(entries)[key := value]
      ensures Get(key) == Some(value)
    {
      entries := entries[key := value];
    }

    /** `remove(key)`: the key reads as absent afterwards; no other key changes. */
    method Remove(key: string)
      modifies this
      ensures entries == old(entries) - {key}
      ensures Get(key) == None
    {
      entries := entries - {key};
    }
  }
}
