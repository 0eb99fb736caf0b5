/**
 * The verification panel's state and event handlers. The state is the fields
 * slice of the store it reads and dispatches to, its loading flag, the table
 * pane's full-screen flag and height, and the table page shown.
 */
module Panel {
  import opened Wrappers
  import opened Keys
  import opened Table
  import opened HeaderColumns
  import opened DataRows
  import opened FieldsLoading

  /** Height of the table pane out of full screen, and in it. */
  const NormalHeight: int := 200
  const FullHeight: int := 10000

  /** From this height on, the pane counts as enlarged and the toggle shrinks it. */
  const EnlargedHeight: int := 500

  /**
   * `handleFullscreen` on the pair (fullScreen, height). It only ever
   * produces the two preset states, and it turns full screen on exactly when
   * the pane is neither full screen nor enlarged.
   */
  function Toggled(fullScreen: bool, height: int): (r: (bool, int))
    ensures r == (false, NormalHeight) || r == (true, FullHeight)
    ensures r.0 <==> !fullScreen && height < EnlargedHeight
  {
    if fullScreen || height >= EnlargedHeight then (false, NormalHeight) else (true, FullHeight)
  }

  /** Once toggled, the pane alternates between the two presets, so toggling twice restores it. */
  lemma ToggleAlternates(fullScreen: bool, height: int)
    ensures var once := Toggled(fullScreen, height);
            var twice := Toggled(once.0, once.1);
            twice.0 == !once.0 && Toggled(twice.0, twice.1) == once
  {
  }

  /** From the initial state, two toggles come back to it. */
  lemma ToggleTwiceFromStart()
    ensures var once := Toggled(false, NormalHeight);
            once == (true, FullHeight) && Toggled(once.0, once.1) == (false, NormalHeight)
  {
  }

  class VerificationPanel {
    /** The batch-level enumeration the panel compares key levels with. */
    const levels: Levels

    /** The fields slice of the store (`keyItem`, `fields`). */
    var store: Store
    var isLoading: bool
    var fullScreen: bool
    var height: int
    var currentPage: int

    /** The panel as it mounts: not loading, normal height, page 1. */
    constructor (levels: Levels, store: Store)
      ensures this.levels == levels && this.store == store
      ensures !isLoading && !fullScreen && height == NormalHeight && currentPage == 1
    {
      this.levels := levels;
      this.store := store;
      isLoading := false;
      fullScreen := false;
      height := NormalHeight;
      currentPage := 1;
    }

    /**
     * `reloadFields`, run when the selected item changes. Returns the call it
     * makes, if any; the response is applied later by `SettleRequest`.
     */
    method ReloadFields(currentItem: Option<Item>, batchLoaded: bool) returns (request: Option<Request>)
      modifies this`store, this`isLoading
      ensures Outcome(store, isLoading, request) == Reloaded(levels, old(store), old(isLoading), currentItem, batchLoaded)
    {
      if currentItem.Some? && currentItem.value.key != "" {
        var key := currentItem.value.key;
        var batchLvl := ToNumber(Segment(key, 0));
        var docId := ToNumber(Segment(key, 2));
        if StrictEquals(batchLvl, Num(levels.page)) && store.fields.Some? && StrictEquals(docId, StoredId(store)) {
          return None;
        }
      }

      isLoading := true;

      if currentItem.None? || currentItem.value.key == "" {
        store := Cleared;
        isLoading := false;
        return None;
      }

      var item := currentItem.value;
      var segments := Split(item.key);
      var lvl := ToNumber(Some(segments[0]));
      var id := if |segments| >= 2 then ToNumber(Some(segments[1])) else Undefined;

      if StrictEquals(lvl, Num(levels.batch)) {
        request := InvokeApi(item, batchLoaded, BatchFields, IdRecord(id));
      } else if StrictEquals(lvl, Num(levels.folder)) {
        request := InvokeApi(item, batchLoaded, FolderFields, BareId(id));
      } else if StrictEquals(lvl, Num(levels.documents)) {
        request := InvokeApi(item, batchLoaded, DocumentFields, IdRecord(id));
      } else if StrictEquals(lvl, Num(levels.page)) {
        request := InvokeApi(item, batchLoaded, DocumentFields, IdRecord(FromOption(item.documentId)));
      } else {
        store := Cleared;
        isLoading := false;
        request := None;
      }
    }

    /** `invokeAPI(func, props)`: the synchronous part, up to the call. */
    method InvokeApi(item: Item, batchLoaded: bool, endpoint: Endpoint, argument: Argument)
      returns (request: Option<Request>)
      modifies this`isLoading
      ensures Outcome(store, isLoading, request)
              == Invoked(levels, store, old(isLoading), item, batchLoaded, endpoint, argument)
    {
      if !batchLoaded || item.key == "" {
        return None;
      }
      var currentKey :=
        if endpoint == DocumentFields then DocumentKey(DocumentKeyText(levels, argument.id, item.folderId))
        else ItemKey(item.key);
      if SameKey(currentKey, store.keyItem) {
        isLoading := false;
        return None;
      }
      request := Some(Request(endpoint, argument, currentKey));
    }

    /** The `then` and `catch` handlers of the call `request`, once it settles with `response`. */
    method SettleRequest(request: Request, response: Response)
      modifies this`store, this`isLoading
      ensures store == Completed(old(store), request, response) && !isLoading
    {
      isLoading := false;
      match response
      case Rejected =>
        store := Cleared;
      case Reply(success, data) =>
        if !success {
          store := Cleared;
        } else if data.Some? {
          store := Store(Some(request.key), data);
        }
    }

    /** `handleFullscreen`. */
    method HandleFullscreen()
      modifies this`fullScreen, this`height
      ensures (fullScreen, height) == Toggled(old(fullScreen), old(height))
    {
      if fullScreen || height >= EnlargedHeight {
        fullScreen := false;
        height := NormalHeight;
      } else {
        fullScreen := true;
        height := FullHeight;
      }
    }

    /** The "←" button: one page back, with no lower bound. */
    method PreviousPage()
      modifies this`currentPage
      ensures currentPage == old(currentPage) - 1
    {
      currentPage := currentPage - 1;
    }

    /** The "→" button: one page on, with no upper bound. */
    method NextPage()
      modifies this`currentPage
      ensures currentPage == old(currentPage) + 1
    {
      currentPage := currentPage + 1;
    }

    /**
     * `renderGridTable`: the merged columns of every header row, and the
     * rows of the current page with the cells they show.
     */
    method RenderGridTable(table: TableData) returns (header: seq<seq<Column>>, body: seq<seq<Cell>>)
      ensures |header| == |table.headers|
      ensures forall k :: 0 <= k < |header| ==> header[k] == Merge(table.headers[k], k, table.cells)
      ensures body == Body(table.cells, currentPage, table.data)
      ensures forall i :: 0 <= i < |body| ==> ShowsPage(currentPage, body[i])
    {
      header := HeaderRows(table.headers, table.cells);
      body := Body(table.cells, currentPage, table.data);
    }
  }
}
