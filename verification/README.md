# Shared contacts: a Dafny model

This project models the SharedContacts module of the Aurora platform
(`Module.php`). The module adds a third storage kind, `shared`, to the
Contacts module. It does this through three event hooks:

- **onGetStorage** appends `'shared'` to the list of storage kinds.
- **prepareFiltersFromStorage** runs before contacts are listed, exported or
  looked up by e-mail. When the request asks for the `shared` or `all`
  storage, it makes sure `Filters` is an array. Then it appends one `$AND`
  filter: the tenant equals the caller's tenant, and the storage equals
  `shared`.
- **onAfterUpdateSharedContacts** reads each contact named in `UUIDs`. It flips
  that contact's `Storage` between `shared` and `personal` and writes the
  contact back. The result slot ends up holding the last write's result.

The model is purely functional and has four modules:

- `Wrappers` (`wrappers.dfy`) holds `Option` and `Result`.
- `PhpArrays` (`php_arrays.dfy`) models PHP values and PHP's ordered arrays:
  - a lookup finds the first entry with the key;
  - `$a[k] = v` rewrites the entry in place, or appends it when the key is new;
  - `$a[] = v` uses the next free integer index, which is one past the largest
    integer key and never below 0;
  - `$a[] = v` raises an error once a key already sits at PHP_INT_MAX.
- `Contacts` (`contacts.dfy`) covers the collaborator: a contact store keyed by
  UUID, `GetContact` as a lookup, `UpdateContact` as a write, and the
  `field => [value, op]` layout of a `$AND` filter, with its decoder.
- `SharedContacts` (`shared_contacts.dfy`) holds the hooks and the subscription
  table of `init()`.

Framework services become parameters:

- the authenticated user's tenant is an `Option<int>`, and `None` means nobody
  is signed in;
- the contact store is a `map<string, Contact>`;
- what `UpdateContact` returns is a function `respond` of the contact written.

## Model

| member | source | states |
|---|---|---|
| SharedContacts.SubscriptionsRouteEvents | Module.php:18-26 | The filter hook is the only handler of the three contact-reading events. The storage-list event and the after-update event each run their own hook once. Events are keyed by the names `init()` uses. Every event name outside those five gets no handler. |
| SharedContacts.OnGetStorage | Module.php:28-31 | The storage list gains exactly one value, `'shared'`, at its end. Earlier entries are unchanged, in order. The new key is fresh. The call fails only when an integer key already sits at PHP_INT_MAX. |
| SharedContacts.OnGetStorageSucceeds | Module.php:30 | Appending `'shared'` always succeeds on a well-formed list that has no entry at PHP_INT_MAX. |
| SharedContacts.RequestsSharedExactly | Module.php:35 | The hook acts exactly when `Storage` is the string `'shared'` or `'all'` (strict comparison). |
| SharedContacts.PrepareFiltersFromStorage | Module.php:33-48 | Any other request is returned unchanged. A missing, null or non-array `Filters` becomes a one-element list holding the tenant/shared filter. An existing `Filters` array keeps all its entries in order and gains that filter under a fresh key. Every other argument keeps its value and position. Well-formedness is preserved. |
| SharedContacts.SharedFilterConditions | Module.php:41-46 | The appended filter decodes to exactly two conditions: `IdTenant = <caller's tenant>` (null when nobody is signed in) and `Storage = 'shared'`. |
| SharedContacts.PrepareFiltersAppendsLast | Module.php:43-46 | After the hook, the last filter of a shared/all request is the tenant/shared `$AND` condition. |
| SharedContacts.PrepareFiltersExtends | Module.php:37-46 | On a shared/all request, the filters already present (none when `Filters` is missing or not an array) are kept in order. Exactly one entry follows them, and it is the tenant/shared filter. |
| SharedContacts.PrepareFiltersTwice | Module.php:35-46 | Running the hook again on its own successful output still matches `Storage`. It keeps the original filters in order and adds a second copy of the tenant/shared filter, so the last two filters are both that filter. The hook is not idempotent. |
| SharedContacts.Toggle | Module.php:60-67 | `shared` becomes `personal` and `personal` becomes `shared`, in both directions of an iff. Any other storage value leaves the contact as it is. No other property changes. |
| SharedContacts.ToggleInvolution | Module.php:60-67 | Toggling twice gives back the original contact. |
| SharedContacts.UpdateSharedContacts | Module.php:55-69 | The store's UUID set never changes. Writes go, in list order and with repeats, to exactly the listed UUIDs that name a stored contact. Contacts that are not written are unchanged. With no write, the store and the result slot are unchanged. Otherwise the result slot holds what `UpdateContact` returned for the last contact written. |
| SharedContacts.UpdateToggledWhenNamedOddly | Module.php:55-68 | A stored contact ends up toggled exactly when the list names it an odd number of times. Otherwise it is unchanged. |
| SharedContacts.UpdateParity | Module.php:55-68 | The same statement, phrased with the occurrence count modulo 2. |
| SharedContacts.UpdateChangesOnlyStorage | Module.php:57-68 | Every stored contact keeps all its properties except `Storage`. It ends up either as it was or toggled once. |
| SharedContacts.WritesPerUuid | Module.php:55-69 | The number of writes to a UUID equals the number of times the list names it when a contact exists under that UUID, and is 0 otherwise. |
| SharedContacts.DistinctUuidsToggleOnce | Module.php:55-68 | In a list with no repeats, a stored contact is toggled if it is listed and unchanged if it is not. |
| SharedContacts.UpdateTwiceRestores | Module.php:55-68 | Listing the same existing UUID twice leaves the store as it was. |
| SharedContacts.UuidList | Module.php:54-55 | A missing or null `UUIDs` gives the empty list, and so does a non-array value (`foreach` runs no iteration). An array gives its values in order. |
| Contacts.GetContact | Module.php:57-58 | A contact is found exactly when the UUID is a string naming a stored contact. The contact found is the stored one. |
| Contacts.UpdateContact | Module.php:68 | The written UUID maps to the written contact. Every other stored contact is unchanged. The UUID set gains at most the written UUID. |
| SharedContacts.OnAfterUpdateSharedContacts | Module.php:50-72 | A missing, null or non-array `UUIDs` produces no writes and leaves the store and the result slot unchanged. An array `UUIDs` has its values walked in order. The store's UUID set is preserved, and contacts that are not written are unchanged. |
| PhpArrays.Push | Module.php:43 | `$a[] = v` keeps every earlier entry. It appends `v` under a fresh integer key. It fails exactly when an integer key already sits at PHP_INT_MAX. It preserves well-formedness. |
| PhpArrays.NextIndex | Module.php:30 | The index `$a[] = v` uses is the least non-negative integer above every integer key. It is at most PHP_INT_MAX. |
| PhpArrays.PushKeepsEntries | Module.php:43-46 | After the append, every key the array already had still maps to its old value. |
| PhpArrays.PushThenGet | Module.php:43-46 | The appended value is found under the key the append chose. |
| PhpArrays.Put | Module.php:39 | `$a[k] = v` makes `k` map to `v` and changes no other key. It keeps the key order, appending `k` at the end only when `k` is new. It preserves well-formedness. |
| PhpArrays.IsSet | Module.php:35 | `isset($a[k])` holds exactly when the first entry with key `k` exists and its value is not null. |
| PhpArrays.IndexOf | Module.php:35 | A lookup finds the first entry with the key, or reports that no entry has it. |
| Contacts.DecodeEncodeAnd | Module.php:43-46 | Every `$AND` filter of `field => [value, op]` conditions decodes back to the conditions it was built from. |
| Contacts.DecodeAnd | Module.php:43-46 | Whatever a filter decodes to, it re-encodes to that same filter. |

## Left out

- The client-side files `js/manager.js` and `js/views/ShareAddressbookControlView.js` are left out. They are UI wiring (a CSS class, a popup, console logging) with no data logic.
- `init()` appears only as its table of event/handler pairs. Event dispatch itself belongs to the framework.
- PHP warnings and notices are left out. These are the warning for reading `IdTenant` with no user, and the one for `foreach` over a non-array `UUIDs`. Their effects are kept: the tenant reads as `null`, and the loop does not run.
- PHP objects as values are left out. A `UUIDs` or `Filters` value that is an object does not occur in the model.
- `GetContact` is modelled as a lookup in a UUID-keyed map. The Contacts module's own access checks and its query by UUID are not part of this model. A non-string UUID finds no contact.
- `UpdateContact` always writes the contact back at its UUID. Its own validation and failure paths are not modelled. Its return value is the caller-supplied `respond`.
- PhpArrays.NextIndex: it follows PHP 7.0 to 8.2, where an array whose integer keys are all negative appends at 0. The array's hidden "next free element" counter, which remembers keys that were later unset, is approximated by the largest integer key present. String keys that spell a decimal integer are assumed already folded to integer keys.
- PhpArrays.Push: a failed `$a[] = v` is modelled as an error result. It corresponds to the PHP 8 `Error` thrown when the next element is occupied; PHP 7 only warned.
- The order of `$aArgs` entries is modelled. How the Contacts module combines the `Filters` list, and how it evaluates a `$AND` block, are not part of this model.
- The toggle writes the contact back and touches no change counter (Module.php:60-68), so the model has no change counter either.
