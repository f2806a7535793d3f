# Salgados da Sara: admin panel and auth records in Dafny

The shop's browser front end keeps all its state in one key-value store.
- Orders live under `orders`.
- Custom menu items live under `customMenuItems`.
- Customer accounts live under `users`.
- Admin accounts live under `adminUsers`.
- The configuration lives under `appConfig`.
- The two sessions live under `currentUser` and `currentAdmin`.

The admin panel (`front/js/admin.js`) and the auth module (`front/js/auth.js`) mostly follow one pattern. A handler reads a collection, usually searches it with `find`, `findIndex` or `filter`, changes or appends one record, and writes the collection back. Seeding, logout, the delivery-fee update and the add-product handler write without searching.

This project models that discipline and proves what each handler does to the store.

- `Storage` is the store: a class `Store` with one map field. Its `Set` and `Remove` methods are `Utils.storage.set` and `remove`. Absent keys read as `None`, which stands for `null`. `get(key) || []` becomes a typed accessor such as `OrdersOf`.
- `Sequences` holds the searches. `FindIndex` is the loop behind `findIndex`, proved against the recursive `FirstIndex`. `Find` is a function over `FirstIndex`, and `Filter` is a recursive function; neither has a loop counterpart. `Unique` states that no two records share a key.
- `Orders` covers the order lifecycle:
  - the status and payment label tables;
  - the transitions the panel offers, as a separate predicate;
  - status updates and rejection, one order at a time and as sequences of steps;
  - the prompt guard of the reject dialog;
  - the newest-first sort of the order list.
- `Catalog` covers the built-in menu followed by the custom items, and add, edit and delete on the custom part.
- `AdminAccounts` covers adding an admin behind a username check, and deleting by id. Deleting does not protect the root account `sara`; only the listing does.
- `Config` covers the delivery fee shown on the settings page and its update.
- `Auth` covers seeding, login, registration, password recovery, admin login, logout and the session lookups.

Every operation that writes to the store has two members:
- A pure function `AfterX(entries, ...)` gives the new map. Its contract states the new state, including that no other key changes.
- A method `X(store, ...)` performs the reads and writes on a `Store`. It is proved to leave exactly `AfterX(old(store.entries), ...)`.

Some inputs are parameters:
- the clock, as integer milliseconds;
- the generated ids;
- the answers to `prompt` and `confirm`;
- `Utils.formatPhone`;
- the error map `Utils.validateForm` returns;
- the built-in menu `Menu.items`.

Money is integer cents. `parseFloat` is modelled by its outcome, an `Option` in which `None` stands for NaN.

## Model

| member | source | states |
|---|---|---|
| Sequences.FirstIndex | front/js/admin.js:142 | the index of the first element matching the predicate, or -1 exactly when none matches |
| Sequences.FindIndex | front/js/admin.js:142 | the linear search returns `FirstIndex` |
| Sequences.Find | front/js/auth.js:45 | a result exists iff some element matches, and it is the first match |
| Sequences.Filter | front/js/admin.js:371 | the kept elements all pass, and every passing element is kept |
| Sequences.FilterIdempotent | front/js/admin.js:371 | filtering twice by the same predicate equals filtering once |
| Sequences.FilterConcat | front/js/admin.js:371 | filtering distributes over concatenation |
| Sequences.FilterKeepsAllPassing | front/js/admin.js:371 | a filter that keeps every element returns the list unchanged |
| Sequences.AppendKeepsUnique | front/js/admin.js:461 | appending a record with a new key keeps keys unique |
| Sequences.FilterKeepsUnique | front/js/admin.js:474 | filtering keeps keys unique |
| Storage.WriteThenRead | front/js/admin.js:152 | writing a collection and reading it back yields what was written |
| Storage.CurrentUserOf | front/js/auth.js:151-153 | a session user is reported exactly when the `currentUser` key is stored, and it is the stored record |
| Storage.CurrentAdminOf | front/js/auth.js:156-158 | a session admin is reported exactly when the `currentAdmin` key is stored, and it is the stored record |
| Storage.Store.Get | front/js/auth.js:152 | a value is read exactly when the key is stored, and it is the stored value |
| Storage.Store.Set | front/js/admin.js:152 | the written value is read back and no other key changes |
| Storage.Store.Remove | front/js/auth.js:136-137 | the removed key reads as absent and no other key changes |
| Orders.StatusLabel | front/js/admin.js:118-127 | the label equals the input exactly when the status is not one of the five; a known status gets a label that is not itself a status |
| Orders.PaymentLabel | front/js/admin.js:130-137 | the label equals the input exactly when the method is not cash, card or pix; a known method gets a label that is not itself a method |
| Orders.LabelTables | front/js/admin.js:118-137 | the five statuses and the three payment methods map to their fixed Portuguese labels |
| Orders.StatusLabelEchoesUnknown | front/js/admin.js:118-127 | a status label equals its input exactly when the status is not one of the five; labelling is idempotent |
| Orders.PaymentLabelEchoesUnknown | front/js/admin.js:130-137 | a payment label equals its input exactly when the method is not cash, card or pix; labelling is idempotent |
| Orders.OfferedTargets | front/js/admin.js:92-111 | the buttons offer only known statuses, never pending, and nothing except for a pending, confirmed or ready order |
| Orders.OfferedMovesForward | front/js/admin.js:92-111 | every offered transition moves to a later stage; delivered, rejected and unknown statuses offer nothing |
| Orders.OfferedPathStages | front/js/admin.js:92-111 | along a path of offered transitions the stage rises by at least one per step |
| Orders.OfferedPathsAreShort | front/js/admin.js:92-111 | no path of offered transitions has more than four statuses |
| Orders.HappyPathIsOffered | front/js/admin.js:92-111 | pending, confirmed, ready, delivered is a path of offered transitions |
| Orders.WithStatus | front/js/admin.js:145-150 | the order keeps its id, takes the new status, grows its history by one, and its last entry records the status |
| Orders.WithRejection | front/js/admin.js:172-178 | the order keeps its id, becomes rejected with the reason stored, grows its history by one, and its last entry records the status |
| Orders.WithStatusRecordsTransition | front/js/admin.js:144-150 | the order takes the new status; one entry with that status and its label is appended; earlier entries and every other field are kept; the last entry matches the status |
| Orders.WithRejectionRecordsReason | front/js/admin.js:171-178 | the order becomes rejected with the reason stored; one entry "Pedido recusado: " + reason is appended; earlier entries are kept |
| Orders.Advance | front/js/admin.js:140-156 | same length and ids; only the first order with the id changes; the list is unchanged exactly when no order has the id |
| Orders.Reject | front/js/admin.js:167-184 | same length and ids; only the first order with the id changes; the list is unchanged exactly when no order has the id |
| Orders.RejectFound | front/js/admin.js:169-178 | on a found id, the found order becomes rejected, stores the reason and gets one entry "Pedido recusado: " + reason after its old history |
| Orders.RejectOrderRecordsReason | front/js/admin.js:167-180 | in the stored orders, the found order is rejected with the reason and the prefixed entry appended, and every other order is unchanged |
| Orders.AdvanceKeepsIndex | front/js/admin.js:142 | an update does not move the order its id finds |
| Orders.AdvanceFound | front/js/admin.js:144-150 | on a found id, the found order is replaced by its updated copy |
| Orders.StepEntries | front/js/admin.js:146-150 | one history entry per update, each with that update's status, time and label |
| Orders.AdvanceAllKeepsOthers | front/js/admin.js:140-156 | a sequence of updates on one id keeps the length and the found index, and leaves every other order unchanged |
| Orders.AdvanceAllIsStepwise | front/js/admin.js:140-156 | a sequence of updates on one id acts on the found order alone |
| Orders.StepwiseAppendsHistory | front/js/admin.js:146-150 | updates only append to the history: old entries followed by one entry per update |
| Orders.AdvanceAllAppendsHistory | front/js/admin.js:146-150 | after several updates the found order's history is the old one followed by one entry per update |
| Orders.AdvanceAllEndsInLastTarget | front/js/admin.js:145 | after several updates the found order has the last status requested, and its last history entry carries that status |
| Orders.AdvanceAllLastStatus | front/js/admin.js:145 | after several updates the found order's status is the last one requested |
| Orders.ConfirmThenReadyScenario | front/js/admin.js:140-156 | confirming and then readying a pending order leaves it ready, with a three-entry history |
| Orders.AdvanceSkipsLegalityCheck | front/js/admin.js:140-184 | the update moves a delivered order back to pending, and rejection applies to it, although neither is offered |
| Orders.AfterUpdateOrderStatus | front/js/admin.js:140-156 | only `orders` changes, to `Advance`; the store is unchanged exactly when the id is missing |
| Orders.AfterRejectOrder | front/js/admin.js:167-184 | only `orders` changes, to `Reject`; the store is unchanged exactly when the id is missing |
| Orders.UpdateOrderStatus | front/js/admin.js:140-156 | the handler leaves the store equal to `AfterUpdateOrderStatus` |
| Orders.RejectOrder | front/js/admin.js:167-184 | the handler leaves the store equal to `AfterRejectOrder` |
| Orders.ShowRejectModal | front/js/admin.js:159-164 | a cancelled or empty prompt answer rejects nothing; any other answer rejects with it |
| Orders.NewestFirstTail | front/js/admin.js:19 | a newest-first list stays newest-first without its head, and the head is the newest |
| Orders.NewestFirstCons | front/js/admin.js:19 | adding an order at least as new as all others in front keeps the list newest-first |
| Orders.InsertByDate | front/js/admin.js:19 | inserting into a newest-first list keeps it newest-first and adds exactly that order |
| Orders.SortNewestFirst | front/js/admin.js:19 | the sorted orders are a permutation of the stored ones, newest first |
| Catalog.EffectiveCatalog | front/js/admin.js:191-192 | the listed catalog is the built-in items, then the custom items, both in order |
| Catalog.ListedProducts | front/js/admin.js:191-192 | the listing reads the custom items from the store and puts them after the built-in items |
| Catalog.BuiltinsShowNoEditControls | front/js/admin.js:205 | edit and delete controls appear exactly for custom items with an id above 26, never for built-in ones |
| Catalog.AddedItemIsCustom | front/js/admin.js:270-281 | a product added at a clock above 26 is listed last, shows edit controls and clashes with no built-in id; deleting it leaves the built-in part intact |
| Catalog.NewProduct | front/js/admin.js:270-277 | the new item takes the clock reading as its id and the five form fields as submitted |
| Catalog.AfterAddProduct | front/js/admin.js:270-281 | only `customMenuItems` changes: the new product is appended |
| Catalog.AddProduct | front/js/admin.js:270-281 | the handler leaves the store equal to `AfterAddProduct` |
| Catalog.OpenEditProduct | front/js/admin.js:290-294 | the editor opens exactly when a custom item has the id, and holds the custom list read at that moment |
| Catalog.EditItems | front/js/admin.js:348-357 | same length and ids; only the found item changes, taking the five form fields; nothing changes when the id is missing |
| Catalog.EditIdempotent | front/js/admin.js:348-357 | submitting the same edit twice equals submitting it once |
| Catalog.AfterSubmitEdit | front/js/admin.js:348-359 | only `customMenuItems` changes, to the edited snapshot; nothing is written when the snapshot lacks the id |
| Catalog.SubmitEditProduct | front/js/admin.js:344-364 | the handler leaves the store equal to `AfterSubmitEdit` |
| Catalog.DeleteItems | front/js/admin.js:371 | every remaining item has another id and came from the list; every item with another id remains |
| Catalog.DeleteItemsProperties | front/js/admin.js:371 | deletion is idempotent, distributes over concatenation, and is a no-op for an absent id |
| Catalog.AddThenDeleteRestores | front/js/admin.js:279-372 | deleting a freshly added item whose id was new restores the list |
| Catalog.AfterDeleteProduct | front/js/admin.js:368-377 | only `customMenuItems` changes, to `DeleteItems`, and only when confirmed |
| Catalog.DeleteProductIdempotent | front/js/admin.js:368-377 | deleting the same id twice leaves the same custom list as deleting it once |
| Catalog.DeleteProduct | front/js/admin.js:368-377 | the handler leaves the store equal to `AfterDeleteProduct` |
| AdminAccounts.AddAdmin | front/js/admin.js:453-461 | refused exactly when the username exists; otherwise the new account is appended last and nothing else changes |
| AdminAccounts.AddAdminKeepsUsernamesUnique | front/js/admin.js:456-461 | adding keeps usernames unique |
| AdminAccounts.AfterAddAdmin | front/js/admin.js:445-462 | only `adminUsers` changes; the store is unchanged exactly when the username is taken; otherwise the account is appended |
| AdminAccounts.AddAdminAccount | front/js/admin.js:445-462 | the handler reports whether it added the account and leaves the store equal to `AfterAddAdmin` |
| AdminAccounts.DeleteAdmins | front/js/admin.js:474 | every remaining account has another id; every account with another id remains |
| AdminAccounts.DeleteAdminsProperties | front/js/admin.js:474 | deletion is idempotent and keeps usernames unique |
| AdminAccounts.DeleteDoesNotProtectRoot | front/js/admin.js:471-480 | 'sara' gets no delete button in the listing (line 393), yet deleting by its id removes it |
| AdminAccounts.GuardedDeleteKeepsRoot | front/js/admin.js:471-480 | when no account with the deleted id is 'sara', every 'sara' account survives |
| AdminAccounts.AfterDeleteAdmin | front/js/admin.js:471-480 | only `adminUsers` changes, to `DeleteAdmins`, and only when confirmed |
| AdminAccounts.DeleteAdmin | front/js/admin.js:471-480 | the handler leaves the store equal to `AfterDeleteAdmin` |
| Config.ShownDeliveryFee | front/js/admin.js:483-489 | the shown fee is never zero: the stored fee when set and non-zero, else 10.00 |
| Config.EnteredFee | front/js/admin.js:494 | the entered fee is 0 exactly when the input is NaN or zero, and otherwise the parsed value |
| Config.WithDeliveryFee | front/js/admin.js:497 | the fee field is set and every other configuration field is kept |
| Config.AfterUpdateDeliveryPrice | front/js/admin.js:492-498 | only `appConfig` changes, and in it only the fee, which is the parsed input or 0 |
| Config.DeliveryFeeRoundTrip | front/js/admin.js:488-494 | a saved non-zero fee is shown back; a zero or unparsable input is shown as 10.00 |
| Config.UpdateDeliveryPrice | front/js/admin.js:492-501 | the handler leaves the store equal to `AfterUpdateDeliveryPrice` |
| Auth.AfterInit | front/js/auth.js:4-40 | an empty user list gets the one default customer; an empty admin list gets the one 'sara' account; non-empty lists and all other keys are kept |
| Auth.InitIdempotent | front/js/auth.js:4-40 | a second `init` changes nothing, whatever ids and times it draws |
| Auth.InitSeedsDefaultLogins | front/js/auth.js:8-38 | on a fresh store the seeded customer is an admin and the default credentials log in to the seeded accounts |
| Auth.Init | front/js/auth.js:4-40 | the method leaves the store equal to `AfterInit` |
| Auth.LoginOutcome | front/js/auth.js:43-53 | succeeds iff some user has both phone and password, with the first such user; otherwise the fixed message |
| Auth.AfterLogin | front/js/auth.js:43-53 | on success only `currentUser` changes, to the matched user; on failure the store is unchanged |
| Auth.Login | front/js/auth.js:43-53 | the method returns `LoginOutcome` and leaves the store equal to `AfterLogin` |
| Auth.NewUser | front/js/auth.js:83-95 | the new account has the given id and time, the formatted phone, '' for a missing complement, the other form fields as typed, and `isAdmin` false |
| Auth.RegisterOutcome | front/js/auth.js:56-102 | a duplicate phone or email is refused first; then field errors are returned; otherwise the new account has the formatted phone, '' for a missing complement and `isAdmin` false |
| Auth.AfterRegister | front/js/auth.js:56-102 | on success the account is appended last and becomes `currentUser`; otherwise nothing changes |
| Auth.Register | front/js/auth.js:56-102 | the method returns `RegisterOutcome` and leaves the store equal to `AfterRegister` |
| Auth.RegisterKeepsEmailsUnique | front/js/auth.js:60-87 | registration keeps emails unique |
| Auth.RegisterKeepsPhonesUnique | front/js/auth.js:60-86 | registration keeps phones unique when `formatPhone` leaves the typed phone unchanged |
| Auth.RegisterAdmitsDuplicatePhone | front/js/auth.js:60-86 | a phone typed unformatted passes the duplicate check and stores a second account with a phone already in use |
| Auth.RegisterThenLogin | front/js/auth.js:43-101 | after registering, login with the stored phone and password succeeds, and yields the new account when its phone was new |
| Auth.ForgotPassword | front/js/auth.js:105-119 | succeeds iff some user has the phone, with the first such user's password in the message; otherwise 'Usuário não encontrado' |
| Auth.RegisterThenRecover | front/js/auth.js:83-118 | a new account whose stored phone was new recovers its own password |
| Auth.AdminLoginOutcome | front/js/auth.js:122-132 | succeeds iff some admin has both username and password, with the first such admin; otherwise the fixed message |
| Auth.AfterAdminLogin | front/js/auth.js:122-132 | on success only `currentAdmin` changes, to the matched admin; on failure the store is unchanged |
| Auth.AdminLogin | front/js/auth.js:122-132 | the method returns `AdminLoginOutcome` and leaves the store equal to `AfterAdminLogin` |
| Auth.AddAdminThenLogin | front/js/auth.js:122-132 | an account just added through the admin panel logs in as itself |
| Auth.IsLoggedIn | front/js/auth.js:141-143 | a customer is logged in exactly when the `currentUser` key is stored |
| Auth.IsAdminLoggedIn | front/js/auth.js:146-148 | an admin is logged in exactly when the `currentAdmin` key is stored |
| Auth.AfterLogout | front/js/auth.js:135-138 | both session keys are absent and nothing else changes |
| Auth.Logout | front/js/auth.js:135-138 | the method leaves the store equal to `AfterLogout` |
| Auth.SessionLifecycle | front/js/auth.js:141-158 | login, registration and admin login make the session lookups report the account; after logout neither is logged in and the stored lists are kept |

## Left out

- Rendering is not modelled: the HTML templates, modals, DOM lookups, event listeners, messages and section switching are UI.
- `Utils.storage` is not part of this model. It is taken as a map that answers `null` for an absent key. A key of the core holding a value of another kind (`WellTyped`) is not modelled.
- `Utils.generateId`, `Date.now()` and `new Date()` are parameters. Ids are assumed to be strings for orders, users and admins, and numbers for catalog items. Nothing is claimed about their freshness.
- `Utils.formatPhone` and `Utils.validateForm` are not part of this model. The first is a function parameter. The second is represented by the error map it returns.
- `Menu.items` is not part of this model. It is a given sequence, assumed to hold ids of at most 26 where that matters (`BuiltinIds`).
- Floating point is not modelled. Prices and fees are integer cents, and the ISO-8601 timestamps are integer milliseconds.
- Catalog.AddProduct: a price for which `parseFloat` yields NaN is not modelled, because the product form carries a number.
- Orders.StatusLabel: keys inherited from the JavaScript object prototype, such as `constructor`, are not modelled. The same holds for `PaymentLabel`.
- Orders.SortNewestFirst: the sort is stated as a permutation in newest-first order. It does not capture that JavaScript's sort is stable and works in place on the array it was just read from.
- `loadConfig`'s fallback is modelled as numeric. Config fields other than numbers are not represented.
- `init` reads the clock twice, so the seeded customer and the seeded admin get separate timestamps (`userCreatedAt`, `adminCreatedAt`).
- Concurrent writes from several browser tabs are not modelled; every handler runs to completion on its own.
- Plaintext password storage and display are reproduced as they are, with no security property claimed.
