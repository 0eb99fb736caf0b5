/**
 * Which fields the panel loads for the selected tree item. The first segment
 * of the item's key gives its level, and the level chooses the batch, folder
 * or document endpoint. The panel does not refetch when the stored fields
 * already belong to the selection. The response, when it arrives, decides
 * the stored `(keyItem, fields)` pair. This module gives that logic as
 * functions over a store record; the panel's methods are proved against
 * them.
 */
module FieldsLoading {
  import opened Wrappers
  import opened Keys

  /**
   * The four members of the application's batch-level enumeration that the
   * panel compares a key's level with. Their values are defined outside the
   * panel, so they are a parameter here.
   */
  datatype Levels = Levels(batch: nat, folder: nat, documents: nat, page: nat)
  {
    predicate Distinct()
    {
      batch != folder && batch != documents && batch != page
      && folder != documents && folder != page && documents != page
    }
  }

  /**
   * The selected tree item: its key ("" when it has none, which the panel
   * treats like a missing key), and the ids of its document and its folder
   * (`currentItem.document?.id`, `currentItem.folder?.id`).
   */
  datatype Item = Item(key: string, documentId: Option<nat>, folderId: Option<nat>)

  /** The `data` of a successful response: the fields to show. */
  datatype Payload = Payload(body: string)

  /**
   * The `keyItem` stored with the fields. For the batch and folder endpoints
   * it is the item's own key string. For the document endpoint it is a new
   * one-element array built around a "documents-id-folder" string. `===`
   * compares arrays by identity, so a new array is equal to no stored key.
   */
  datatype Key = ItemKey(text: string) | DocumentKey(text: string)

  /** The fields slice of the store. */
  datatype Store = Store(keyItem: Option<Key>, fields: Option<Payload>)

  /** The slice after `setFields({keyItem: undefined, fields: undefined})` or `clearFields()`. */
  const Cleared: Store := Store(None, None)

  datatype Endpoint = BatchFields | FolderFields | DocumentFields

  /** What the endpoint is called with: `{id}` or the bare `id`. */
  datatype Argument = IdRecord(id: JsNumber) | BareId(id: JsNumber)

  /** A call `invokeAPI` makes: the endpoint, its argument, and the key the fields will be stored under. */
  datatype Request = Request(endpoint: Endpoint, argument: Argument, key: Key)

  /** How the call settles: a reply with its `success` flag and `data`, or a rejected promise. */
  datatype Response = Reply(success: bool, data: Option<Payload>) | Rejected

  /** The slice, the `isLoading` flag and the call made, after `reloadFields`. */
  datatype Outcome = Outcome(store: Store, isLoading: bool, request: Option<Request>)

  /** The selection has an item with a non-empty key (`currentItem && currentItem.key`). */
  predicate HasKey(item: Option<Item>)
  {
    item.Some? && item.value.key != ""
  }

  /** `keyItem?.toString()`: a one-element array prints as its element. */
  function KeyText(keyItem: Option<Key>): Option<string>
  {
    match keyItem
    case None => None
    case Some(k) => Some(k.text)
  }

  /** `Number(key.split('-')[0])`: the level of a key. */
  function LevelOf(key: string): JsNumber
  {
    ToNumber(Segment(key, 0))
  }

  /** The second element of `key.split('-').map(Number)`: `undefined` exactly when the key holds no hyphen. */
  function IdOf(key: string): (id: JsNumber)
    ensures id == Undefined <==> Hyphen !in key
  {
    SplitSingle(key);
    if |Split(key)| >= 2 then ToNumber(Segment(key, 1)) else Undefined
  }

  /** `Number(key.split('-')[2])`: the document a page key belongs to. */
  function PageDocumentId(key: string): JsNumber
  {
    ToNumber(Segment(key, 2))
  }

  /** `Number(keyItem?.toString().split('-')[1])`: the id the stored fields were loaded for. */
  function StoredId(store: Store): JsNumber
  {
    match KeyText(store.keyItem)
    case None => NaN
    case Some(text) => ToNumber(Segment(text, 1))
  }

  /**
   * The early return of `reloadFields`: a page is selected, fields are
   * stored, and the page's document id equals the stored key's id. Since
   * `NaN` equals nothing, it only ever fires for a numeric document id.
   */
  predicate ShowsSameDocument(levels: Levels, store: Store, key: string)
    ensures ShowsSameDocument(levels, store, key) ==>
              LevelOf(key) == Num(levels.page) && store.fields.Some?
              && PageDocumentId(key).Num? && PageDocumentId(key) == StoredId(store)
  {
    StrictEquals(LevelOf(key), Num(levels.page)) && store.fields.Some?
    && StrictEquals(PageDocumentId(key), StoredId(store))
  }

  /**
   * The text of the key `invokeAPI` builds for the document endpoint. Read
   * back with `split('-')` and `Number`, its first segment is the documents
   * level and its second the document id (`NaN` when the id was `NaN` or
   * `undefined`).
   */
  function DocumentKeyText(levels: Levels, id: JsNumber, folderId: Option<nat>): (text: string)
    ensures ToNumber(Segment(text, 0)) == Num(levels.documents)
    ensures ToNumber(Segment(text, 1)) == if id.Num? then id else NaN
  {
    var first, second, third := Decimal(levels.documents), Text(id), Text(FromOption(folderId));
    assert Hyphen !in first by { assert AllDigits(first); }
    LeadingSegments(first, second, third);
    TextReadsBack(Num(levels.documents));
    TextReadsBack(id);
    first + [Hyphen] + second + [Hyphen] + third
  }

  /**
   * `currentKey === keyItem`: a freshly built document key equals nothing,
   * and an item key equals only the same stored key.
   */
  predicate SameKey(current: Key, stored: Option<Key>)
    ensures current.DocumentKey? ==> !SameKey(current, stored)
    ensures SameKey(current, stored) ==> stored == Some(current)
  {
    current.ItemKey? && stored == Some(current)
  }

  /**
   * `invokeAPI(func, props)`, entered with `isLoading` already set: without a
   * key or without a batch nothing happens; a key equal to the stored one
   * ends loading; otherwise the endpoint is called and loading goes on until
   * it settles.
   */
  function Invoked(levels: Levels, store: Store, isLoading: bool, item: Item, batchLoaded: bool,
                   endpoint: Endpoint, argument: Argument): (o: Outcome)
    ensures o.store == store
    ensures o.request.Some? ==> batchLoaded && item.key != ""
    ensures o.request.Some? ==> o.isLoading == isLoading && o.request.value.endpoint == endpoint
  {
    if !batchLoaded || item.key == "" then Outcome(store, isLoading, None)
    else
      var currentKey :=
        if endpoint == DocumentFields then DocumentKey(DocumentKeyText(levels, argument.id, item.folderId))
        else ItemKey(item.key);
      if SameKey(currentKey, store.keyItem) then Outcome(store, false, None)
      else Outcome(store, isLoading, Some(Request(endpoint, argument, currentKey)))
  }

  /**
   * `reloadFields`, up to the call it makes. It never stores fields itself:
   * the slice is kept or cleared, and while a call is in flight the slice is
   * kept and loading is on.
   */
  function Reloaded(levels: Levels, store: Store, isLoading: bool, item: Option<Item>, batchLoaded: bool): (o: Outcome)
    ensures o.store == store || o.store == Cleared
    ensures o.request.Some? ==> o.isLoading && o.store == store && HasKey(item)
  {
    if HasKey(item) && ShowsSameDocument(levels, store, item.value.key) then Outcome(store, isLoading, None)
    else if !HasKey(item) then Outcome(Cleared, false, None)
    else
      var it := item.value;
      var lvl, id := LevelOf(it.key), IdOf(it.key);
      if StrictEquals(lvl, Num(levels.batch)) then
        Invoked(levels, store, true, it, batchLoaded, BatchFields, IdRecord(id))
      else if StrictEquals(lvl, Num(levels.folder)) then
        Invoked(levels, store, true, it, batchLoaded, FolderFields, BareId(id))
      else if StrictEquals(lvl, Num(levels.documents)) then
        Invoked(levels, store, true, it, batchLoaded, DocumentFields, IdRecord(id))
      else if StrictEquals(lvl, Num(levels.page)) then
        Invoked(levels, store, true, it, batchLoaded, DocumentFields, IdRecord(FromOption(it.documentId)))
      else Outcome(Cleared, false, None)
  }

  /** The `then`/`catch` handlers of `invokeAPI`: the slice once the call settles. */
  function Completed(store: Store, request: Request, response: Response): (r: Store)
    ensures r == store || r == Cleared || (response.Reply? && r == Store(Some(request.key), response.data))
  {
    match response
    case Rejected => Cleared
    case Reply(success, data) =>
      if !success then Cleared
      else if data.None? then store
      else Store(Some(request.key), data)
  }

  /** Fields are stored together with the key they were loaded for. */
  predicate Paired(store: Store)
  {
    store.keyItem.Some? <==> store.fields.Some?
  }

  // ---------------------------------------------------------------------------
  // The decision table
  // ---------------------------------------------------------------------------

  /** Without an item, or with an item whose key is empty, the fields are cleared and loading ends. */
  lemma ReloadWithoutKey(levels: Levels, store: Store, isLoading: bool, item: Option<Item>, batchLoaded: bool)
    requires !HasKey(item)
    ensures Reloaded(levels, store, isLoading, item, batchLoaded) == Outcome(Cleared, false, None)
  {
  }

  /**
   * A level that is none of the four, a non-numeric one included, clears
   * the fields and ends loading.
   */
  lemma ReloadUnknownLevel(levels: Levels, store: Store, isLoading: bool, item: Item, batchLoaded: bool)
    requires item.key != ""
    requires LevelOf(item.key) !in {Num(levels.batch), Num(levels.folder), Num(levels.documents), Num(levels.page)}
    ensures Reloaded(levels, store, isLoading, Some(item), batchLoaded) == Outcome(Cleared, false, None)
  {
  }

  /** "abc-1" has a level that is not a number. */
  lemma NonNumericLevelClears(levels: Levels, store: Store, isLoading: bool)
    ensures Reloaded(levels, store, isLoading, Some(Item("abc-1", None, None)), true) == Outcome(Cleared, false, None)
  {
    assert Split("abc-1") == ["abc", "1"] by {
      SplitAfter("abc", "1");
      assert "abc" + [Hyphen] + "1" == "abc-1";
      SplitPrefix("1", "");
      assert "1" + "" == "1";
    }
    assert !IsDigit('a');
    assert LevelOf("abc-1") == NaN;
  }

  /**
   * With no batch loaded, `invokeAPI` returns at once. No call is made and
   * `isLoading`, already set, stays on.
   */
  lemma ReloadWithoutBatch(levels: Levels, store: Store, isLoading: bool, item: Item)
    requires item.key != "" && !ShowsSameDocument(levels, store, item.key)
    requires LevelOf(item.key) in {Num(levels.batch), Num(levels.folder), Num(levels.documents), Num(levels.page)}
    ensures Reloaded(levels, store, isLoading, Some(item), false) == Outcome(store, true, None)
  {
  }

  /**
   * The level picks the endpoint: batch calls the batch endpoint with `{id}`,
   * folder calls the folder endpoint with the bare `id`, and documents calls
   * the document endpoint with `{id}`. The batch and folder calls are skipped
   * when the stored key is the item's own key. The document call is never
   * skipped. Any other level clears the fields.
   */
  lemma ReloadDispatch(levels: Levels, store: Store, isLoading: bool, item: Item, ids: seq<nat>)
    requires levels.Distinct()
    requires |ids| >= 2 && item.key == KeyOf(ids) && ids[0] != levels.page
    ensures var o := Reloaded(levels, store, isLoading, Some(item), true);
            var same := store.keyItem == Some(ItemKey(item.key));
            (ids[0] == levels.batch ==>
               o == if same then Outcome(store, false, None)
                    else Outcome(store, true, Some(Request(BatchFields, IdRecord(Num(ids[1])), ItemKey(item.key)))))
            && (ids[0] == levels.folder ==>
               o == if same then Outcome(store, false, None)
                    else Outcome(store, true, Some(Request(FolderFields, BareId(Num(ids[1])), ItemKey(item.key)))))
            && (ids[0] == levels.documents ==>
               o == Outcome(store, true, Some(Request(DocumentFields, IdRecord(Num(ids[1])),
                                                      DocumentKey(DocumentKeyText(levels, Num(ids[1]), item.folderId))))))
            && (ids[0] !in {levels.batch, levels.folder, levels.documents} ==> o == Outcome(Cleared, false, None))
  {
    KeySegments(ids);
  }

  /**
   * A page calls the document endpoint with `{id: document.id}` unless the
   * stored fields carry the page's document id, in which case nothing
   * changes, `isLoading` included.
   */
  lemma ReloadPage(levels: Levels, store: Store, isLoading: bool, item: Item, ids: seq<nat>)
    requires levels.Distinct()
    requires |ids| >= 3 && item.key == KeyOf(ids) && ids[0] == levels.page
    ensures var o := Reloaded(levels, store, isLoading, Some(item), true);
            var docId := FromOption(item.documentId);
            if store.fields.Some? && StoredId(store) == Num(ids[2]) then o == Outcome(store, isLoading, None)
            else o == Outcome(store, true, Some(Request(DocumentFields, IdRecord(docId),
                                                        DocumentKey(DocumentKeyText(levels, docId, item.folderId)))))
  {
    KeySegments(ids);
  }

  /** The response decides the slice; loading ends whichever way the call settles. */
  lemma ResponseOutcomes(store: Store, request: Request, payload: Payload)
    ensures Completed(store, request, Reply(true, Some(payload))) == Store(Some(request.key), Some(payload))
    ensures Completed(store, request, Reply(true, None)) == store
    ensures forall data :: Completed(store, request, Reply(false, data)) == Cleared
    ensures Completed(store, request, Rejected) == Cleared
  {
  }

  /** Neither reloading nor a settled call ever leaves fields without their key, or a key without fields. */
  lemma PairingPreserved(levels: Levels, store: Store, isLoading: bool, item: Option<Item>, batchLoaded: bool,
                         request: Request, response: Response)
    requires Paired(store)
    ensures Paired(Reloaded(levels, store, isLoading, item, batchLoaded).store)
    ensures Paired(Completed(store, request, response))
  {
  }

  // ---------------------------------------------------------------------------
  // Reloading after a load
  // ---------------------------------------------------------------------------

  /**
   * Once a document's fields are loaded, selecting any page of that document
   * changes nothing: no call is made and the document's fields stay.
   */
  lemma DocumentFieldsCoverItsPages(levels: Levels, store: Store, isLoading: bool, document: Item, docIds: seq<nat>,
                                    page: Item, pageIds: seq<nat>, payload: Payload)
    requires levels.Distinct()
    requires |docIds| >= 2 && document.key == KeyOf(docIds) && docIds[0] == levels.documents
    requires |pageIds| >= 3 && page.key == KeyOf(pageIds) && pageIds[0] == levels.page && pageIds[2] == docIds[1]
    ensures var o := Reloaded(levels, store, isLoading, Some(document), true);
            o.request.Some?
            && var loaded := Completed(o.store, o.request.value, Reply(true, Some(payload)));
               Reloaded(levels, loaded, false, Some(page), true) == Outcome(loaded, false, None)
  {
    ReloadDispatch(levels, store, isLoading, document, docIds);
    var o := Reloaded(levels, store, isLoading, Some(document), true);
    var loaded := Completed(o.store, o.request.value, Reply(true, Some(payload)));
    ReloadPage(levels, loaded, false, page, pageIds);
  }

  /** Once a page's fields are loaded, selecting another page of the same document changes nothing. */
  lemma PageFieldsCoverSiblingPages(levels: Levels, store: Store, isLoading: bool, first: Item, firstIds: seq<nat>,
                                    docId: nat, second: Item, secondIds: seq<nat>, payload: Payload)
    requires levels.Distinct()
    requires |firstIds| >= 3 && first.key == KeyOf(firstIds) && firstIds[0] == levels.page
    requires first.documentId == Some(docId)
    requires !(store.fields.Some? && StoredId(store) == Num(firstIds[2]))
    requires |secondIds| >= 3 && second.key == KeyOf(secondIds) && secondIds[0] == levels.page
    requires secondIds[2] == docId
    ensures var o := Reloaded(levels, store, isLoading, Some(first), true);
            o.request.Some?
            && var loaded := Completed(o.store, o.request.value, Reply(true, Some(payload)));
               Reloaded(levels, loaded, false, Some(second), true) == Outcome(loaded, false, None)
  {
    ReloadPage(levels, store, isLoading, first, firstIds);
    var o := Reloaded(levels, store, isLoading, Some(first), true);
    var loaded := Completed(o.store, o.request.value, Reply(true, Some(payload)));
    ReloadPage(levels, loaded, false, second, secondIds);
  }

  /** Reselecting a batch or folder whose fields are loaded makes no call and ends loading. */
  lemma SameItemNotRefetched(levels: Levels, store: Store, isLoading: bool, item: Item, ids: seq<nat>,
                             payload: Payload, isLoadingLater: bool)
    requires levels.Distinct()
    requires |ids| >= 2 && item.key == KeyOf(ids) && (ids[0] == levels.batch || ids[0] == levels.folder)
    ensures var o := Reloaded(levels, store, isLoading, Some(item), true);
            var loaded := if o.request.Some? then Completed(o.store, o.request.value, Reply(true, Some(payload)))
                          else o.store;
            Reloaded(levels, loaded, isLoadingLater, Some(item), true) == Outcome(loaded, false, None)
  {
    ReloadDispatch(levels, store, isLoading, item, ids);
    var o := Reloaded(levels, store, isLoading, Some(item), true);
    var loaded := if o.request.Some? then Completed(o.store, o.request.value, Reply(true, Some(payload)))
                  else o.store;
    ReloadDispatch(levels, loaded, isLoadingLater, item, ids);
  }

  /** Reselecting a document whose fields are loaded calls the endpoint again: its key is always a new array. */
  lemma DocumentAlwaysRefetched(levels: Levels, store: Store, isLoading: bool, item: Item, ids: seq<nat>,
                                payload: Payload, isLoadingLater: bool)
    requires levels.Distinct()
    requires |ids| >= 2 && item.key == KeyOf(ids) && ids[0] == levels.documents
    ensures var o := Reloaded(levels, store, isLoading, Some(item), true);
            o.request.Some?
            && var loaded := Completed(o.store, o.request.value, Reply(true, Some(payload)));
               Reloaded(levels, loaded, isLoadingLater, Some(item), true) == o.(store := loaded)
  {
    ReloadDispatch(levels, store, isLoading, item, ids);
    var o := Reloaded(levels, store, isLoading, Some(item), true);
    var loaded := Completed(o.store, o.request.value, Reply(true, Some(payload)));
    ReloadDispatch(levels, loaded, isLoadingLater, item, ids);
  }

  /**
   * The early return does not look at the level of the stored key. With a
   * folder's fields stored, selecting a page whose document id equals that
   * folder's id changes nothing, and the folder's fields stay on show.
   */
  lemma StoredLevelNotCompared(levels: Levels, isLoading: bool, folderId: nat, payload: Payload,
                               page: Item, pageIds: seq<nat>)
    requires levels.Distinct()
    requires |pageIds| >= 3 && page.key == KeyOf(pageIds) && pageIds[0] == levels.page && pageIds[2] == folderId
    ensures var store := Store(Some(ItemKey(KeyOf([levels.folder, folderId]))), Some(payload));
            Reloaded(levels, store, isLoading, Some(page), true) == Outcome(store, isLoading, None)
  {
    KeySegments([levels.folder, folderId]);
    var store := Store(Some(ItemKey(KeyOf([levels.folder, folderId]))), Some(payload));
    assert StoredId(store) == Num(folderId);
    ReloadPage(levels, store, isLoading, page, pageIds);
  }
}
