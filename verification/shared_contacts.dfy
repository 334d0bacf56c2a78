/**
 * The SharedContacts module: three hooks on the Contacts module.
 *
 * - `OnGetStorage` adds the `shared` storage kind to the list of storages.
 * - `PrepareFiltersFromStorage` appends the tenant/shared `$AND` filter to
 *   `Filters` of a contact query for the `shared` or `all` storage.
 * - `OnAfterUpdateSharedContacts` moves each named contact between the
 *   `shared` and `personal` storages.
 *
 * Framework services are explicit parameters: the authenticated user's tenant
 * (`None` when nobody is signed in), the contact store, and `respond`, the
 * value `UpdateContact` returns for the contact it writes.
 */
module SharedContacts {
  import opened Wrappers
  import opened PhpArrays
  import opened Contacts

  const SharedStorage: string := "shared"
  const PersonalStorage: string := "personal"
  const AllStorage: string := "all"

  const StorageArg: Key := StrKey("Storage")
  const FiltersArg: Key := StrKey("Filters")
  const UuidsArg: Key := StrKey("UUIDs")

  // ---------------------------------------------------------------------------
  // Event subscriptions

  /** The names of the Contacts events `init()` subscribes to. */
  const GetStorageEvent: string := "Contacts::GetStorage"
  const GetContactsBeforeEvent: string := "Contacts::GetContacts::before"
  const ExportBeforeEvent: string := "Contacts::Export::before"
  const GetContactsByEmailsBeforeEvent: string := "Contacts::GetContactsByEmails::before"
  const UpdateSharedContactsAfterEvent: string := "Contacts::UpdateSharedContacts::after"

  const SubscribedEvents: set<string> := {
    GetStorageEvent, GetContactsBeforeEvent, ExportBeforeEvent,
    GetContactsByEmailsBeforeEvent, UpdateSharedContactsAfterEvent
  }

  datatype Handler = OnGetStorageHandler | PrepareFiltersHandler | OnAfterUpdateSharedContactsHandler

  /** The event/handler pairs `init()` subscribes, in subscription order. */
  const Subscriptions: seq<(string, Handler)> := [
    (GetStorageEvent, OnGetStorageHandler),
    (GetContactsBeforeEvent, PrepareFiltersHandler),
    (ExportBeforeEvent, PrepareFiltersHandler),
    (GetContactsByEmailsBeforeEvent, PrepareFiltersHandler),
    (UpdateSharedContactsAfterEvent, OnAfterUpdateSharedContactsHandler)
  ]

  /** The handlers subscribed to `event`, in subscription order. */
  function HandlersIn(subs: seq<(string, Handler)>, event: string): (hs: seq<Handler>)
    ensures forall h :: h in hs ==> (event, h) in subs
  {
    if |subs| == 0 then []
    else (if subs[0].0 == event then [subs[0].1] else []) + HandlersIn(subs[1..], event)
  }

  /** The five event names differ from one another. */
  lemma EventNamesDistinct()
    ensures GetStorageEvent != GetContactsBeforeEvent && GetStorageEvent != ExportBeforeEvent
    ensures GetStorageEvent != GetContactsByEmailsBeforeEvent && GetStorageEvent != UpdateSharedContactsAfterEvent
    ensures GetContactsBeforeEvent != ExportBeforeEvent && GetContactsBeforeEvent != GetContactsByEmailsBeforeEvent
    ensures GetContactsBeforeEvent != UpdateSharedContactsAfterEvent && ExportBeforeEvent != GetContactsByEmailsBeforeEvent
    ensures ExportBeforeEvent != UpdateSharedContactsAfterEvent
    ensures GetContactsByEmailsBeforeEvent != UpdateSharedContactsAfterEvent
  {
    assert |GetStorageEvent| == 20;
    assert |GetContactsBeforeEvent| == 29;
    assert |ExportBeforeEvent| == 24;
    assert |GetContactsByEmailsBeforeEvent| == 37;
    assert |UpdateSharedContactsAfterEvent| == 37;
    assert GetContactsByEmailsBeforeEvent[10] != UpdateSharedContactsAfterEvent[10];
  }

  /**
   * Each of the three contact-reading events runs the filter hook and nothing
   * else from this module; storage listing and the shared-contacts update each
   * run their own hook once; no other event reaches this module.
   */
  lemma SubscriptionsRouteEvents()
    ensures HandlersIn(Subscriptions, GetStorageEvent) == [OnGetStorageHandler]
    ensures HandlersIn(Subscriptions, GetContactsBeforeEvent) == [PrepareFiltersHandler]
    ensures HandlersIn(Subscriptions, ExportBeforeEvent) == [PrepareFiltersHandler]
    ensures HandlersIn(Subscriptions, GetContactsByEmailsBeforeEvent) == [PrepareFiltersHandler]
    ensures HandlersIn(Subscriptions, UpdateSharedContactsAfterEvent) == [OnAfterUpdateSharedContactsHandler]
    ensures forall name :: name !in SubscribedEvents ==> HandlersIn(Subscriptions, name) == []
  {
    EventNamesDistinct();
    OnlyHandler(Subscriptions, 0, GetStorageEvent);
    OnlyHandler(Subscriptions, 1, GetContactsBeforeEvent);
    OnlyHandler(Subscriptions, 2, ExportBeforeEvent);
    OnlyHandler(Subscriptions, 3, GetContactsByEmailsBeforeEvent);
    OnlyHandler(Subscriptions, 4, UpdateSharedContactsAfterEvent);
    forall name | name !in SubscribedEvents ensures HandlersIn(Subscriptions, name) == [] {
      Unsubscribed(Subscriptions, name);
    }
  }

  lemma {:induction false} HandlersInAppend(a: seq<(string, Handler)>, b: seq<(string, Handler)>, event: string)
    ensures HandlersIn(a + b, event) == HandlersIn(a, event) + HandlersIn(b, event)
    decreases |a|
  {
    if |a| == 0 {
      assert a + b == b;
    } else {
      assert (a + b)[0] == a[0];
      assert (a + b)[1..] == a[1..] + b;
      HandlersInAppend(a[1..], b, event);
    }
  }

  /** An event named by exactly one pair gets exactly that pair's handler. */
  lemma OnlyHandler(subs: seq<(string, Handler)>, i: nat, event: string)
    requires i < |subs| && subs[i].0 == event
    requires forall j :: 0 <= j < |subs| && j != i ==> subs[j].0 != event
    ensures HandlersIn(subs, event) == [subs[i].1]
  {
    var before, after := subs[..i], subs[i + 1..];
    assert subs == before + [subs[i]] + after;
    HandlersInAppend(before + [subs[i]], after, event);
    HandlersInAppend(before, [subs[i]], event);
    Unsubscribed(before, event);
    Unsubscribed(after, event);
    assert [subs[i]][1..] == [];
  }

  /** An event no pair names gets no handler. */
  lemma {:induction false} Unsubscribed(subs: seq<(string, Handler)>, event: string)
    requires forall i :: 0 <= i < |subs| ==> subs[i].0 != event
    ensures HandlersIn(subs, event) == []
  {
    if |subs| > 0 {
      Unsubscribed(subs[1..], event);
    }
  }

  // ---------------------------------------------------------------------------
  // onGetStorage

  /** Appends the `shared` storage kind to the storage list. */
  function OnGetStorage(storages: seq<Entry>): (r: Result<seq<Entry>, ArrayError>)
    ensures r.Ok? <==> !NextSlotOccupied(storages)
    ensures r.Ok? ==> ValuesOf(r.value) == ValuesOf(storages) + [Str(SharedStorage)]
    ensures r.Ok? ==> r.value[..|storages|] == storages
    ensures r.Ok? ==> r.value[|storages|].key !in KeysOf(storages)
    ensures r.Ok? && WellFormed(storages) ==> WellFormed(r.value)
  {
    Push(storages, Str(SharedStorage))
  }

  /** Every real storage list (keys within PHP's int range, none at PHP_INT_MAX) gains `shared`. */
  lemma OnGetStorageSucceeds(storages: seq<Entry>)
    requires WellFormed(storages)
    requires IntKey(PhpIntMax) !in KeysOf(storages)
    ensures OnGetStorage(storages).Ok?
  {
    forall i | 0 <= i < |storages| && storages[i].key.IntKey?
      ensures storages[i].key.i < PhpIntMax
    {
      assert ValidKey(storages[i].key);
      assert KeysOf(storages)[i] == storages[i].key;
    }
  }

  // ---------------------------------------------------------------------------
  // prepareFiltersFromStorage

  /** `Storage` is set and strictly equal to `'shared'` or `'all'`. */
  predicate RequestsShared(args: seq<Entry>)
  {
    IsSet(args, StorageArg)
    && (Get(args, StorageArg).value == Str(SharedStorage) || Get(args, StorageArg).value == Str(AllStorage))
  }

  /**
   * The comparison is strict: only the strings `shared` and `all` select the
   * shared contacts; `null`, other types and other spellings do not.
   */
  lemma RequestsSharedExactly(args: seq<Entry>)
    ensures RequestsShared(args) <==> Get(args, StorageArg) in {Some(Str("shared")), Some(Str("all"))}
  {
  }

  /** `$oUser->IdTenant`; reading it with no authenticated user yields `null`. */
  function TenantValue(tenant: Option<int>): Value
  {
    match tenant
    case None => Null
    case Some(t) => Int(t)
  }

  /** The two comparisons of the appended filter: the caller's tenant, and the shared storage. */
  function SharedConditions(tenant: Option<int>): seq<Condition>
  {
    [Condition("IdTenant", TenantValue(tenant), "="), Condition("Storage", Str(SharedStorage), "=")]
  }

  /** `['$AND' => ['IdTenant' => [tenant, '='], 'Storage' => ['shared', '=']]]`. */
  function SharedFilter(tenant: Option<int>): Value
  {
    EncodeAnd(SharedConditions(tenant))
  }

  /** The filters already in the request: the `Filters` array, or none when it is missing or not an array. */
  function ExistingFilters(args: seq<Entry>): seq<Entry>
  {
    match Get(args, FiltersArg)
    case Some(Arr(fs)) => fs
    case _ => []
  }

  /**
   * Appends the tenant/shared `$AND` filter to `Filters` of a request for the
   * `shared` or `all` storage; any other request is returned as it came.
   */
  function PrepareFiltersFromStorage(args: seq<Entry>, tenant: Option<int>): (r: Result<seq<Entry>, ArrayError>)
    ensures !RequestsShared(args) ==> r == Ok(args)
    ensures RequestsShared(args) && !(Get(args, FiltersArg).Some? && Get(args, FiltersArg).value.Arr?) ==>
      r == Ok(Put(args, FiltersArg, Arr([Entry(IntKey(0), SharedFilter(tenant))])))
    ensures RequestsShared(args) && Get(args, FiltersArg).Some? && Get(args, FiltersArg).value.Arr? ==>
      var prior := Get(args, FiltersArg).value.entries;
      && (r.Err? <==> NextSlotOccupied(prior))
      && (r.Ok? ==>
            && Get(r.value, FiltersArg).Some?
            && var fs := Get(r.value, FiltersArg).value;
            && fs.Arr? && |fs.entries| == |prior| + 1
            && fs.entries[..|prior|] == prior
            && fs.entries[|prior|].val == SharedFilter(tenant)
            && fs.entries[|prior|].key !in KeysOf(prior))
    ensures r.Ok? ==> forall k :: k != FiltersArg ==> Get(r.value, k) == Get(args, k)
    ensures r.Ok? && RequestsShared(args) && FiltersArg in KeysOf(args) ==> KeysOf(r.value) == KeysOf(args)
    ensures r.Ok? && RequestsShared(args) && FiltersArg !in KeysOf(args) ==> KeysOf(r.value) == KeysOf(args) + [FiltersArg]
    ensures r.Ok? && WellFormed(args) ==> WellFormed(r.value)
  {
    if !RequestsShared(args) then Ok(args)
    else
      match Push(ExistingFilters(args), SharedFilter(tenant))
      case Err(e) => Err(e)
      case Ok(fs) =>
        assert ExistingFilters(args) == [] ==> fs == [Entry(IntKey(0), SharedFilter(tenant))];
        Ok(Put(args, FiltersArg, Arr(fs)))
  }

  /** The appended filter reads back as exactly: tenant equals the caller's, storage equals `shared`. */
  lemma SharedFilterConditions(tenant: Option<int>)
    ensures DecodeAnd(SharedFilter(tenant)) == Some(SharedConditions(tenant))
    ensures SharedConditions(tenant)[0] == Condition("IdTenant", TenantValue(tenant), "=")
    ensures SharedConditions(tenant)[1] == Condition("Storage", Str("shared"), "=")
  {
    DecodeEncodeAnd(SharedConditions(tenant));
  }

  /** A request for the shared storage always ends with the tenant/shared filter as its last filter. */
  lemma PrepareFiltersAppendsLast(args: seq<Entry>, tenant: Option<int>)
    requires RequestsShared(args)
    requires PrepareFiltersFromStorage(args, tenant).Ok?
    ensures var r := PrepareFiltersFromStorage(args, tenant).value;
      && Get(r, FiltersArg).Some? && Get(r, FiltersArg).value.Arr?
      && var fs := Get(r, FiltersArg).value.entries;
      && |fs| > 0 && DecodeAnd(fs[|fs| - 1].val) == Some(SharedConditions(tenant))
  {
    SharedFilterConditions(tenant);
  }

  /** Running the hook twice adds the filter twice: the hook is not idempotent. */
  lemma PrepareFiltersTwice(args: seq<Entry>, tenant: Option<int>)
    requires RequestsShared(args)
    requires PrepareFiltersFromStorage(args, tenant).Ok?
    requires PrepareFiltersFromStorage(PrepareFiltersFromStorage(args, tenant).value, tenant).Ok?
    ensures var once := PrepareFiltersFromStorage(args, tenant).value;
      && RequestsShared(once)
      && var prior := ExistingFilters(args);
      && var fs := ExistingFilters(PrepareFiltersFromStorage(once, tenant).value);
      && |fs| == |prior| + 2
      && fs[..|prior|] == prior
      && fs[|fs| - 2].val == SharedFilter(tenant)
      && fs[|fs| - 1].val == SharedFilter(tenant)
  {
    var once := PrepareFiltersFromStorage(args, tenant).value;
    assert StorageArg != FiltersArg by {
      assert StorageArg.s[0] != FiltersArg.s[0];
    }
    assert Get(once, StorageArg) == Get(args, StorageArg);
    PrepareFiltersExtends(args, tenant);
    PrepareFiltersExtends(once, tenant);
    ExtendedTwice(ExistingFilters(args), ExistingFilters(once),
                  ExistingFilters(PrepareFiltersFromStorage(once, tenant).value), SharedFilter(tenant));
  }

  /** Two one-entry extensions of a filter list, seen from the original list. */
  lemma ExtendedTwice(prior: seq<Entry>, mid: seq<Entry>, fs: seq<Entry>, f: Value)
    requires |mid| == |prior| + 1 && mid[..|prior|] == prior && mid[|prior|].val == f
    requires |fs| == |mid| + 1 && fs[..|mid|] == mid && fs[|mid|].val == f
    ensures |fs| == |prior| + 2 && fs[..|prior|] == prior
    ensures fs[|fs| - 2].val == f && fs[|fs| - 1].val == f
  {
    assert fs[|fs| - 2] == mid[|prior|];
    assert fs[..|prior|] == mid[..|prior|];
  }

  /** On a shared/all request the existing filters are kept in order and the filter comes after them. */
  lemma PrepareFiltersExtends(args: seq<Entry>, tenant: Option<int>)
    requires RequestsShared(args)
    requires PrepareFiltersFromStorage(args, tenant).Ok?
    ensures var prior := ExistingFilters(args);
      && var fs := ExistingFilters(PrepareFiltersFromStorage(args, tenant).value);
      && |fs| == |prior| + 1 && fs[..|prior|] == prior && fs[|prior|].val == SharedFilter(tenant)
  {
  }

  // ---------------------------------------------------------------------------
  // onAfterUpdateSharedContacts

  /** Moves a contact from `shared` to `personal` or back; any other storage stays as it is. */
  function Toggle(c: Contact): (r: Contact)
    ensures r.properties == c.properties
    ensures r.storage == PersonalStorage <==> c.storage == SharedStorage
    ensures r.storage == SharedStorage <==> c.storage == PersonalStorage
    ensures c.storage != SharedStorage && c.storage != PersonalStorage ==> r == c
  {
    if c.storage == SharedStorage then c.(storage := PersonalStorage)
    else if c.storage == PersonalStorage then c.(storage := SharedStorage)
    else c
  }

  /** Toggling twice gives the contact back. */
  lemma ToggleInvolution(c: Contact)
    ensures Toggle(Toggle(c)) == c
  {
  }

  /** The store after the update, the last `UpdateContact` result, and the UUIDs written, in order. */
  datatype Outcome = Outcome(store: Store, result: Value, written: seq<string>)

  /** The listed UUIDs that name a stored contact, in list order, repeats kept. */
  function Found(uuids: seq<Value>, stored: set<string>): (r: seq<string>)
    ensures |r| <= |uuids|
    ensures forall u :: u in r ==> u in stored && Str(u) in uuids
  {
    if |uuids| == 0 then []
    else (if uuids[0].Str? && uuids[0].s in stored then [uuids[0].s] else []) + Found(uuids[1..], stored)
  }

  /** How many times `x` appears in `xs`. */
  function Count<T(==)>(xs: seq<T>, x: T): nat
  {
    if |xs| == 0 then 0 else (if xs[0] == x then 1 else 0) + Count(xs[1..], x)
  }

  /**
   * The `foreach` of the hook: looks each UUID up in the store as it stands at
   * that point, and toggles and writes back every contact it finds.  The
   * result slot holds the last write's result.
   */
  function UpdateSharedContacts(uuids: seq<Value>, store: Store, result: Value, respond: Contact -> Value): (o: Outcome)
    ensures o.store.Keys == store.Keys
    ensures o.written == Found(uuids, store.Keys)
    ensures forall k :: k in store && k !in o.written ==> o.store[k] == store[k]
    ensures o.written == [] ==> o.store == store && o.result == result
    ensures o.written != [] ==> o.result == respond(o.store[o.written[|o.written| - 1]])
  {
    if |uuids| == 0 then Outcome(store, result, [])
    else match GetContact(store, uuids[0])
      case None =>
        UpdateSharedContacts(uuids[1..], store, result, respond)
      case Some(c) =>
        var toggled := Toggle(c);
        var rest := UpdateSharedContacts(uuids[1..], UpdateContact(store, uuids[0].s, toggled), respond(toggled), respond);
        Outcome(rest.store, rest.result, [uuids[0].s] + rest.written)
  }

  /** True when the list names `uuid` an odd number of times. */
  function NamedOddly(uuids: seq<Value>, uuid: string): bool
  {
    if |uuids| == 0 then false else (uuids[0] == Str(uuid)) != NamedOddly(uuids[1..], uuid)
  }

  lemma {:induction false} NamedOddlyIsOddCount(uuids: seq<Value>, uuid: string)
    ensures NamedOddly(uuids, uuid) <==> Count(uuids, Str(uuid)) % 2 == 1
    decreases |uuids|
  {
    if |uuids| > 0 {
      NamedOddlyIsOddCount(uuids[1..], uuid);
    }
  }

  /**
   * The whole effect on one stored contact: it ends up toggled exactly when
   * the list names it an odd number of times.
   */
  lemma {:induction false} UpdateToggledWhenNamedOddly(uuids: seq<Value>, store: Store, result: Value, respond: Contact -> Value, k: string)
    requires k in store
    ensures UpdateSharedContacts(uuids, store, result, respond).store[k]
      == if NamedOddly(uuids, k) then Toggle(store[k]) else store[k]
    decreases |uuids|
  {
    if |uuids| > 0 {
      var o := UpdateSharedContacts(uuids, store, result, respond);
      match GetContact(store, uuids[0])
      case None =>
        assert uuids[0] != Str(k);
        UpdateToggledWhenNamedOddly(uuids[1..], store, result, respond, k);
      case Some(c) =>
        var u := uuids[0].s;
        var toggled := Toggle(c);
        var s' := UpdateContact(store, u, toggled);
        var rest := UpdateSharedContacts(uuids[1..], s', respond(toggled), respond);
        assert o.store == rest.store;
        UpdateToggledWhenNamedOddly(uuids[1..], s', respond(toggled), respond, k);
        if u == k {
          assert s'[k] == Toggle(store[k]);
          ToggleInvolution(store[k]);
        } else {
          assert s'[k] == store[k];
        }
    }
  }

  /** The same, counted: toggled exactly when the number of times the list names it is odd. */
  lemma UpdateParity(uuids: seq<Value>, store: Store, result: Value, respond: Contact -> Value, k: string)
    requires k in store
    ensures UpdateSharedContacts(uuids, store, result, respond).store[k]
      == if Count(uuids, Str(k)) % 2 == 1 then Toggle(store[k]) else store[k]
  {
    UpdateToggledWhenNamedOddly(uuids, store, result, respond, k);
    NamedOddlyIsOddCount(uuids, k);
  }

  /** Only `Storage` ever changes: each stored contact ends up as it was or toggled once. */
  lemma UpdateChangesOnlyStorage(uuids: seq<Value>, store: Store, result: Value, respond: Contact -> Value, k: string)
    requires k in store
    ensures var after := UpdateSharedContacts(uuids, store, result, respond).store;
      && k in after
      && after[k].properties == store[k].properties
      && (after[k] == store[k] || after[k] == Toggle(store[k]))
  {
    UpdateToggledWhenNamedOddly(uuids, store, result, respond, k);
  }

  /** One `UpdateContact` per listed UUID that names a stored contact, and none for any other. */
  lemma {:induction false} WritesPerUuid(uuids: seq<Value>, store: Store, k: string)
    ensures Count(Found(uuids, store.Keys), k) == if k in store then Count(uuids, Str(k)) else 0
    decreases |uuids|
  {
    if |uuids| > 0 {
      WritesPerUuid(uuids[1..], store, k);
      var head := if uuids[0].Str? && uuids[0].s in store then [uuids[0].s] else [];
      CountAppend(head, Found(uuids[1..], store.Keys), k);
    }
  }

  lemma {:induction false} CountAppend<T>(a: seq<T>, b: seq<T>, k: T)
    ensures Count(a + b, k) == Count(a, k) + Count(b, k)
    decreases |a|
  {
    if |a| == 0 {
      assert a + b == b;
    } else {
      assert (a + b)[0] == a[0];
      assert (a + b)[1..] == a[1..] + b;
      CountAppend(a[1..], b, k);
    }
  }

  /** With no repeated UUID, every listed stored contact is toggled once and every other one kept. */
  lemma DistinctUuidsToggleOnce(uuids: seq<Value>, store: Store, result: Value, respond: Contact -> Value, k: string)
    requires k in store
    requires Count(uuids, Str(k)) <= 1
    ensures UpdateSharedContacts(uuids, store, result, respond).store[k]
      == if Str(k) in uuids then Toggle(store[k]) else store[k]
  {
    UpdateParity(uuids, store, result, respond, k);
    CountPositive(uuids, Str(k));
    var n := Count(uuids, Str(k));
    assert n == 0 || n == 1;
    assert n % 2 == 1 <==> n == 1;
  }

  lemma {:induction false} CountPositive<T>(xs: seq<T>, x: T)
    ensures Count(xs, x) > 0 <==> x in xs
    decreases |xs|
  {
    if |xs| > 0 {
      CountPositive(xs[1..], x);
      assert xs == [xs[0]] + xs[1..];
    }
  }

  /** The UUID list the hook walks: `UUIDs` if set (its values when it is an array, nothing otherwise), else empty. */
  function UuidList(args: seq<Entry>): (r: seq<Value>)
    ensures !IsSet(args, UuidsArg) ==> r == []
    ensures IsSet(args, UuidsArg) && !Get(args, UuidsArg).value.Arr? ==> r == []
    ensures Get(args, UuidsArg).Some? && Get(args, UuidsArg).value.Arr? ==> r == ValuesOf(Get(args, UuidsArg).value.entries)
  {
    if IsSet(args, UuidsArg) && Get(args, UuidsArg).value.Arr? then ValuesOf(Get(args, UuidsArg).value.entries)
    else []
  }

  /** The hook itself: runs the update over the request's `UUIDs`. */
  function OnAfterUpdateSharedContacts(args: seq<Entry>, result: Value, store: Store, respond: Contact -> Value): (o: Outcome)
    ensures !IsSet(args, UuidsArg) ==> o == Outcome(store, result, [])
    ensures IsSet(args, UuidsArg) && !Get(args, UuidsArg).value.Arr? ==> o == Outcome(store, result, [])
    ensures Get(args, UuidsArg).Some? && Get(args, UuidsArg).value.Arr? ==>
      o.written == Found(ValuesOf(Get(args, UuidsArg).value.entries), store.Keys)
    ensures o.store.Keys == store.Keys
    ensures forall k :: k in store && k !in o.written ==> o.store[k] == store[k]
  {
    UpdateSharedContacts(UuidList(args), store, result, respond)
  }

  /** Asking to update a UUID twice in a row leaves the store as it was. */
  lemma UpdateTwiceRestores(u: string, store: Store, result: Value, respond: Contact -> Value)
    requires u in store
    ensures UpdateSharedContacts([Str(u), Str(u)], store, result, respond).store == store
  {
    var o := UpdateSharedContacts([Str(u), Str(u)], store, result, respond);
    forall k | k in store ensures o.store[k] == store[k] {
      UpdateParity([Str(u), Str(u)], store, result, respond, k);
    }
  }
}
