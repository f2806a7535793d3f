/**
 * The product catalog of the admin panel: the built-in menu followed by the custom items
 * kept under 'customMenuItems', and the add, edit and delete operations on the custom part.
 */
module Catalog {
  import opened Wrappers
  import opened Records
  import opened Sequences
  import opened Storage

  /** Built-in items carry ids up to 26; the panel offers edit and delete only above it. */
  const MaxBuiltinId: int := 26

  /** What is assumed of the built-in menu: every id is in the built-in range. */
  predicate BuiltinIds(builtins: seq<CatalogItem>) {
    forall k :: 0 <= k < |builtins| ==> builtins[k].id <= MaxBuiltinId
  }

  /** The listing's guard: edit and delete buttons appear only for ids above 26. */
  predicate ShowsEditControls(item: CatalogItem) {
    item.id > MaxBuiltinId
  }

  /** The five fields the add and edit forms submit. */
  datatype ProductForm = ProductForm(
    name: string, price: Cents, category: string, description: string, isPortioned: bool)

  /** `[...Menu.items, ...customItems]`: built-in items first, then custom ones, in order. */
  function EffectiveCatalog(builtins: seq<CatalogItem>, custom: seq<CatalogItem>): (r: seq<CatalogItem>)
    ensures |r| == |builtins| + |custom|
    ensures r[..|builtins|] == builtins && r[|builtins|..] == custom
  {
    builtins + custom
  }

  /** No built-in item is offered for editing or deletion; a custom one is iff its id is above 26. */
  lemma BuiltinsShowNoEditControls(builtins: seq<CatalogItem>, custom: seq<CatalogItem>)
    requires BuiltinIds(builtins)
    ensures var all := EffectiveCatalog(builtins, custom);
      forall k :: 0 <= k < |all| ==>
        (ShowsEditControls(all[k]) <==> k >= |builtins| && custom[k - |builtins|].id > MaxBuiltinId)
  {
    var all := EffectiveCatalog(builtins, custom);
    forall k | 0 <= k < |all|
      ensures ShowsEditControls(all[k]) <==> k >= |builtins| && custom[k - |builtins|].id > MaxBuiltinId
    {
      if k < |builtins| {
        assert all[k] == builtins[k];
      } else {
        assert all[k] == custom[k - |builtins|];
      }
    }
  }

  /** The record the add form creates, with the clock reading as its id. */
  function NewProduct(id: int, form: ProductForm): (item: CatalogItem)
    ensures item.id == id
    ensures ProductForm(item.name, item.price, item.category, item.description, item.isPortioned) == form
  {
    CatalogItem(id, form.name, form.price, form.category, form.description, form.isPortioned)
  }

  function HasItemId(id: int): CatalogItem -> bool {
    (item: CatalogItem) => item.id == id
  }

  function ItemIdIsNot(id: int): CatalogItem -> bool {
    (item: CatalogItem) => item.id != id
  }

  /** `customItems.findIndex(item => item.id === id)` */
  function ItemIndex(custom: seq<CatalogItem>, id: int): int {
    FirstIndex(custom, HasItemId(id))
  }

  /** The custom items after the edit form is saved on the list `custom` it was opened with. */
  function EditItems(custom: seq<CatalogItem>, id: int, form: ProductForm): (r: seq<CatalogItem>)
    ensures |r| == |custom|
    ensures forall j :: 0 <= j < |custom| ==> r[j].id == custom[j].id
    ensures forall j :: 0 <= j < |custom| && j != ItemIndex(custom, id) ==> r[j] == custom[j]
    ensures ItemIndex(custom, id) == -1 ==> r == custom
    ensures var i := ItemIndex(custom, id);
      i >= 0 ==>
        && r[i].name == form.name && r[i].price == form.price
        && r[i].category == form.category && r[i].description == form.description
        && r[i].isPortioned == form.isPortioned
  {
    var i := ItemIndex(custom, id);
    if i == -1 then custom
    else
      custom[i := custom[i].(name := form.name, price := form.price, category := form.category,
                             description := form.description, isPortioned := form.isPortioned)]
  }

  /** Saving the same form twice is saving it once. */
  lemma EditIdempotent(custom: seq<CatalogItem>, id: int, form: ProductForm)
    ensures EditItems(EditItems(custom, id, form), id, form) == EditItems(custom, id, form)
  {
    var once := EditItems(custom, id, form);
    assert forall j :: 0 <= j < |once| ==> HasItemId(id)(once[j]) == HasItemId(id)(custom[j]);
    assert ItemIndex(once, id) == ItemIndex(custom, id);
  }

  /** `customItems.filter(item => item.id !== id)` */
  function DeleteItems(custom: seq<CatalogItem>, id: int): (r: seq<CatalogItem>)
    ensures |r| <= |custom|
    ensures forall k :: 0 <= k < |r| ==> r[k].id != id && r[k] in custom
    ensures forall k :: 0 <= k < |custom| && custom[k].id != id ==> custom[k] in r
  {
    Filter(custom, ItemIdIsNot(id))
  }

  /** Deleting is idempotent, keeps the survivors' order, and is a no-op for an absent id. */
  lemma DeleteItemsProperties(custom: seq<CatalogItem>, more: seq<CatalogItem>, id: int)
    ensures DeleteItems(DeleteItems(custom, id), id) == DeleteItems(custom, id)
    ensures DeleteItems(custom + more, id) == DeleteItems(custom, id) + DeleteItems(more, id)
    ensures (forall k :: 0 <= k < |custom| ==> custom[k].id != id) ==> DeleteItems(custom, id) == custom
  {
    FilterIdempotent(custom, ItemIdIsNot(id));
    FilterConcat(custom, more, ItemIdIsNot(id));
    if forall k :: 0 <= k < |custom| ==> custom[k].id != id {
      FilterKeepsAllPassing(custom, ItemIdIsNot(id));
    }
  }

  /** Adding an item whose id is new and deleting that id gives back the old list. */
  lemma AddThenDeleteRestores(custom: seq<CatalogItem>, item: CatalogItem)
    requires forall k :: 0 <= k < |custom| ==> custom[k].id != item.id
    ensures DeleteItems(custom + [item], item.id) == custom
  {
    DeleteItemsProperties(custom, [item], item.id);
    assert DeleteItems([item], item.id) == [];
  }

  /**
   * With a clock reading above 26, an added item is listed after every built-in one, with edit
   * controls and an id no built-in item has; deleting it afterwards leaves the built-in part intact.
   */
  lemma AddedItemIsCustom(builtins: seq<CatalogItem>, custom: seq<CatalogItem>, now: int,
                          form: ProductForm)
    requires BuiltinIds(builtins) && now > MaxBuiltinId
    ensures var item := NewProduct(now, form);
      var all := EffectiveCatalog(builtins, custom + [item]);
      && all[|all| - 1] == item && item.name == form.name
      && ShowsEditControls(item)
      && (forall k :: 0 <= k < |builtins| ==> builtins[k].id != item.id)
      && EffectiveCatalog(builtins, DeleteItems(custom + [item], item.id))[..|builtins|] == builtins
  {
  }

  // ---------------------------------------------------------------- store operations

  /** `loadProducts`: the catalog the panel lists. */
  function ListedProducts(entries: map<string, Value>, builtins: seq<CatalogItem>): (r: seq<CatalogItem>)
    requires WellTyped(entries)
    ensures |r| == |builtins| + |CustomItemsOf(entries)|
    ensures r[..|builtins|] == builtins && r[|builtins|..] == CustomItemsOf(entries)
  {
    EffectiveCatalog(builtins, CustomItemsOf(entries))
  }

  /** The store after the add form is submitted: one item appended, nothing else changed. */
  function AfterAddProduct(entries: map<string, Value>, now: int, form: ProductForm): (r: map<string, Value>)
    requires WellTyped(entries)
    ensures WellTyped(r)
    ensures r - {CustomMenuItemsKey} == entries - {CustomMenuItemsKey}
    ensures CustomItemsOf(r) == CustomItemsOf(entries) + [NewProduct(now, form)]
  {
    entries[CustomMenuItemsKey := ItemList(CustomItemsOf(entries) + [NewProduct(now, form)])]
  }

  /**
   * The store after the edit form is saved. `snapshot` is the list read when the form was
   * opened; it is written back edited, whatever the store holds by then.
   */
  function AfterSubmitEdit(entries: map<string, Value>, snapshot: seq<CatalogItem>, id: int,
                           form: ProductForm): (r: map<string, Value>)
    requires WellTyped(entries)
    ensures WellTyped(r)
    ensures r - {CustomMenuItemsKey} == entries - {CustomMenuItemsKey}
    ensures ItemIndex(snapshot, id) == -1 ==> r == entries
    ensures ItemIndex(snapshot, id) >= 0 ==> CustomItemsOf(r) == EditItems(snapshot, id, form)
  {
    if ItemIndex(snapshot, id) == -1 then entries
    else entries[CustomMenuItemsKey := ItemList(EditItems(snapshot, id, form))]
  }

  /** The store after `deleteProduct`: `confirmed` is the answer to the confirmation dialog. */
  function AfterDeleteProduct(entries: map<string, Value>, id: int, confirmed: bool): (r: map<string, Value>)
    requires WellTyped(entries)
    ensures WellTyped(r)
    ensures r - {CustomMenuItemsKey} == entries - {CustomMenuItemsKey}
    ensures !confirmed ==> r == entries
    ensures confirmed ==> CustomItemsOf(r) == DeleteItems(CustomItemsOf(entries), id)
  {
    if !confirmed then entries
    else entries[CustomMenuItemsKey := ItemList(DeleteItems(CustomItemsOf(entries), id))]
  }

  /** Deleting the same id twice leaves the custom list as deleting it once. */
  lemma DeleteProductIdempotent(entries: map<string, Value>, id: int)
    requires WellTyped(entries)
    ensures CustomItemsOf(AfterDeleteProduct(AfterDeleteProduct(entries, id, true), id, true))
         == CustomItemsOf(AfterDeleteProduct(entries, id, true))
  {
    DeleteItemsProperties(CustomItemsOf(entries), [], id);
  }

  /** The add form's submit handler, with the clock reading `Date.now()` passed in as `now`. */
  method AddProduct(store: Store, now: int, form: ProductForm)
    requires store.Valid()
    modifies store
    ensures store.Valid()
    ensures store.entries == AfterAddProduct(old(store.entries), now, form)
  {
    var customItems := CustomItemsOf(store.entries);
    customItems := customItems + [NewProduct(now, form)];
    store.Set(CustomMenuItemsKey, ItemList(customItems));
  }

  /**
   * `editProduct(productId)` up to showing the form: the custom list it read, or `None` when
   * no custom item has that id (so a built-in id is never edited).
   */
  method OpenEditProduct(store: Store, productId: int) returns (snapshot: Option<seq<CatalogItem>>)
    requires store.Valid()
    ensures snapshot.Some? <==> exists k :: 0 <= k < |CustomItemsOf(store.entries)| &&
                                            CustomItemsOf(store.entries)[k].id == productId
    ensures snapshot.Some? ==> snapshot.value == CustomItemsOf(store.entries)
  {
    var customItems := CustomItemsOf(store.entries);
    var i := FindIndex(customItems, HasItemId(productId));
    if i == -1 {
      snapshot := None;
    } else {
      snapshot := Some(customItems);
    }
  }

  /** The edit form's submit handler, over the list read when the form was opened. */
  method SubmitEditProduct(store: Store, snapshot: seq<CatalogItem>, productId: int, form: ProductForm)
    requires store.Valid()
    modifies store
    ensures store.Valid()
    ensures store.entries == AfterSubmitEdit(old(store.entries), snapshot, productId, form)
  {
    var customItems := snapshot;
    var i := FindIndex(customItems, HasItemId(productId));
    if i >= 0 {
      customItems := customItems[i := customItems[i].(name := form.name, price := form.price,
        category := form.category, description := form.description, isPortioned := form.isPortioned)];
      store.Set(CustomMenuItemsKey, ItemList(customItems));
    }
  }

  /** `deleteProduct(productId)`: `confirmed` is the answer to the confirmation dialog. */
  method DeleteProduct(store: Store, productId: int, confirmed: bool)
    requires store.Valid()
    modifies store
    ensures store.Valid()
    ensures store.entries == AfterDeleteProduct(old(store.entries), productId, confirmed)
  {
    if confirmed {
      var customItems := CustomItemsOf(store.entries);
      var filteredItems := Filter(customItems, ItemIdIsNot(productId));
      store.Set(CustomMenuItemsKey, ItemList(filteredItems));
    }
  }
}
