/**
 * The data client's decisions, with every network exchange abstracted into an
 * outcome: where saveItem sends an entry and what it reports
 * (public/script.js:72-114), what the submit handler does around it
 * (public/script.js:45-52), deleteItem's confirmation and reports
 * (public/script.js:156-181), and the status flags getData sets on the page
 * (public/script.js:291-319).
 */
module DataClient {
  import opened Wrappers
  import opened Js
  import Altar

  datatype HttpMethod = Get | Post | Put | Delete

  datatype Request = Request(verb: HttpMethod, path: string)

  /** A response body as `response.json()` parses it. */
  datatype Json = Prim(v: Value) | Obj(fields: Object) | Arr(elements: seq<Object>)

  /** `response.json()` either gives a value or throws (a body that is not JSON). */
  datatype Body<T> = Parsed(json: T) | Unparsable

  /** How a `fetch` ends: it throws (network failure), or a response arrives with its `ok` flag, `statusText` and body. */
  datatype Outcome<T> = Thrown | Replied(ok: bool, statusText: string, body: Body<T>)

  /** A successful exchange: an ok response whose body parses. */
  predicate Succeeded<T>(outcome: Outcome<T>)
  {
    outcome.Replied? && outcome.ok && outcome.body.Parsed?
  }

  /** Reading `errorData.error`: a value or undefined, or a TypeError when the body is `null`. */
  datatype Read = Got(p: Option<Value>) | ReadThrows

  function ErrorField(j: Json): Read
  {
    match j
    case Prim(v) => if v.Null? then ReadThrows else Got(None)
    case Obj(fields) => Got(Prop(fields, "error"))
    case Arr(_) => Got(None)
  }

  // ---------------------------------------------------------------------------
  // Saving
  // ---------------------------------------------------------------------------

  /** The request saveItem sends: an update of `/data/{id}` when `data.id` is truthy, else a create on `/data`. */
  function SaveRequest(data: Object): (r: Request)
    ensures r.verb == Put <==> Present(Prop(data, "id"))
    ensures r.verb == Post <==> !Present(Prop(data, "id"))
    ensures r.verb == Put ==> r.path == "/data/" + ToStr(data["id"])
    ensures r.verb == Post ==> r.path == "/data"
  {
    var id := Prop(data, "id");
    if Present(id) then Request(Put, "/data/" + ToStr(id.value)) else Request(Post, "/data")
  }

  /** What the user is told and whether the list is fetched again. */
  datatype Effect = Effect(alert: Option<string>, refresh: bool)

  const SAVE_ERROR: string := "An error occurred while saving"
  const SAVE_FAILED: string := "Failed to save: "

  /** saveItem's reaction to the outcome of its request. */
  function SaveEffect(outcome: Outcome<Json>): (e: Effect)
    ensures e.refresh <==> Succeeded(outcome)
    ensures e.alert.None? <==> e.refresh
  {
    match outcome
    case Thrown => Effect(Some(SAVE_ERROR), false)
    case Replied(ok, statusText, body) =>
      if !ok then (
        match body
        case Unparsable => Effect(Some(SAVE_FAILED + statusText), false)
        case Parsed(j) =>
          match ErrorField(j)
          case ReadThrows => Effect(Some(SAVE_FAILED + statusText), false)
          case Got(p) => Effect(Some(OrElse(p, statusText)), false))
      else
        match body
        case Unparsable => Effect(Some(SAVE_ERROR), false)  // `response.json()` throws into the outer catch
        case Parsed(_) => Effect(None, true)
  }

  /**
   * The message a failed save shows: the server's `error` field, falling back
   * to the status text; "Failed to save: " and the status text when the error
   * body cannot be read; the generic notice when the request throws or an ok
   * response's body does not parse.
   */
  lemma SaveMessages(outcome: Outcome<Json>)
    ensures outcome.Thrown? ==> SaveEffect(outcome).alert == Some(SAVE_ERROR)
    ensures outcome.Replied? && !outcome.ok && outcome.body.Parsed? && ErrorField(outcome.body.json).Got? ==>
      SaveEffect(outcome).alert == Some(OrElse(ErrorField(outcome.body.json).p, outcome.statusText))
    ensures outcome.Replied? && !outcome.ok &&
            (outcome.body.Unparsable? || ErrorField(outcome.body.json).ReadThrows?) ==>
      SaveEffect(outcome).alert == Some(SAVE_FAILED + outcome.statusText)
    ensures outcome.Replied? && outcome.ok && outcome.body.Unparsable? ==>
      SaveEffect(outcome).alert == Some(SAVE_ERROR)
  {
  }

  /** A 400 with `{"error": "name is required"}` shows "name is required" and does not refresh. */
  lemma RejectedCreateScenario()
    ensures SaveEffect(Replied(false, "Bad Request", Parsed(Obj(map["error" := Str("name is required")]))))
      == Effect(Some("name is required"), false)
  {
  }

  /** What pressing save amounts to: the request sent (if any), its effect, and whether the dialog closes. */
  datatype Submission = Submission(request: Option<Request>, effect: Effect, closesDialog: bool)

  /**
   * The submit handler: `encoded` is getFormData's result (None when it
   * throws, which abandons the handler). Otherwise the entry is saved and the
   * form is reset and the dialog closed, whether or not the save succeeded.
   */
  function Submit(encoded: Option<Object>, outcome: Outcome<Json>): (s: Submission)
    ensures encoded.None? ==> s == Submission(None, Effect(None, false), false)
    ensures encoded.Some? ==> s.request == Some(SaveRequest(encoded.value)) && s.closesDialog
    ensures encoded.Some? ==> s.effect == SaveEffect(outcome)
    ensures encoded.Some? ==> (s.effect.alert.None? <==> Succeeded(outcome))
    ensures s.effect.refresh <==> encoded.Some? && Succeeded(outcome)
  {
    if encoded.None? then Submission(None, Effect(None, false), false)
    else Submission(Some(SaveRequest(encoded.value)), SaveEffect(outcome), true)
  }

  // ---------------------------------------------------------------------------
  // Deleting
  // ---------------------------------------------------------------------------

  datatype Deletion = Deletion(request: Option<Request>, alert: Option<string>, refresh: bool)

  const DELETE_ERROR: string := "An error occurred while deleting"
  const DELETE_FAILED: string := "Failed to delete item"

  /**
   * deleteItem: `confirmed` is the user's answer to the confirmation, `id`
   * the entry's `id` property, `outcome` how the DELETE request ends.
   */
  function DeleteEffect(confirmed: bool, id: Option<Value>, outcome: Outcome<Json>): (d: Deletion)
    ensures !confirmed ==> d == Deletion(None, None, false)
    ensures confirmed ==> d.request == Some(Request(Delete, "/data/" + PropText(id)))
    ensures d.refresh <==> confirmed && Succeeded(outcome)
    ensures confirmed ==> (d.alert.None? <==> d.refresh)
  {
    if !confirmed then Deletion(None, None, false)
    else
      var request := Some(Request(Delete, "/data/" + PropText(id)));
      match outcome
      case Thrown => Deletion(request, Some(DELETE_ERROR), false)
      case Replied(ok, _, body) =>
        match body
        case Unparsable => Deletion(request, Some(DELETE_ERROR), false)  // `response.json()` throws
        case Parsed(j) =>
          if ok then Deletion(request, None, true)
          else
            match ErrorField(j)
            case ReadThrows => Deletion(request, Some(DELETE_ERROR), false)
            case Got(p) => Deletion(request, Some(OrElse(p, DELETE_FAILED)), false)
  }

  /**
   * The message a failed delete shows: the server's `error` field, falling
   * back to "Failed to delete item"; the generic notice when the request
   * throws or the body cannot be read.
   */
  lemma DeleteMessages(id: Option<Value>, outcome: Outcome<Json>)
    ensures outcome.Replied? && !outcome.ok && outcome.body.Parsed? && ErrorField(outcome.body.json).Got? ==>
      DeleteEffect(true, id, outcome).alert == Some(OrElse(ErrorField(outcome.body.json).p, DELETE_FAILED))
    ensures outcome.Thrown? || (outcome.Replied? && outcome.body.Unparsable?) ==>
      DeleteEffect(true, id, outcome).alert == Some(DELETE_ERROR)
    ensures outcome.Replied? && !outcome.ok && outcome.body.Parsed? && ErrorField(outcome.body.json).ReadThrows? ==>
      DeleteEffect(true, id, outcome).alert == Some(DELETE_ERROR)
  {
  }

  // ---------------------------------------------------------------------------
  // Listing and the status flags
  // ---------------------------------------------------------------------------

  /** An element's `style.display`: never set, 'block', or 'none'. */
  datatype Display = Unset | Block | Hidden

  /** The page elements getData writes to. */
  class Page {
    var readyStatus: Display
    var notReadyStatus: Display
    var createButton: Display
    var contentArea: Display
    /** The altar shown in the content area, once one has been rendered. */
    var altar: Option<seq<Altar.Node>>

    constructor ()
      ensures readyStatus == Unset && notReadyStatus == Unset
      ensures createButton == Unset && contentArea == Unset && altar == None
    {
      readyStatus, notReadyStatus := Unset, Unset;
      createButton, contentArea := Unset, Unset;
      altar := None;
    }

    /**
     * getData for the outcome of `GET /data`. On success the ready status is
     * shown, the not-ready status hidden and the altar re-rendered from the
     * list; a non-ok response shows the not-ready status and hides the ready
     * status, the create button and the content area; a throw only shows the
     * not-ready status. Either status is visible afterwards.
     */
    method GetData(outcome: Outcome<seq<Js.Object>>)
      modifies this
      ensures readyStatus == Block || notReadyStatus == Block
      ensures Succeeded(outcome) ==>
        && readyStatus == Block && notReadyStatus == Hidden
        && altar == Some(Altar.AltarOf(outcome.body.json))
        && createButton == old(createButton) && contentArea == old(contentArea)
      ensures outcome.Replied? && !outcome.ok ==>
        && notReadyStatus == Block && readyStatus == Hidden
        && createButton == Hidden && contentArea == Hidden && altar == old(altar)
      ensures outcome.Thrown? ==>
        && notReadyStatus == Block && readyStatus == old(readyStatus)
        && createButton == old(createButton) && contentArea == old(contentArea) && altar == old(altar)
      ensures outcome.Replied? && outcome.ok && outcome.body.Unparsable? ==>
        && readyStatus == Block && notReadyStatus == Block
        && createButton == old(createButton) && contentArea == old(contentArea) && altar == old(altar)
    {
      match outcome {
        case Thrown =>
          notReadyStatus := Block;
        case Replied(ok, _, body) =>
          if ok {
            readyStatus := Block;
            notReadyStatus := Hidden;
            match body {
              case Unparsable =>
                notReadyStatus := Block;  // `response.json()` throws into the catch
              case Parsed(items) =>
                var rendered := Altar.RenderAltar(items);
                altar := Some(rendered);
            }
          } else {
            notReadyStatus := Block;
            readyStatus := Hidden;
            createButton := Hidden;
            contentArea := Hidden;
          }
      }
    }
  }

  /** An unreachable backend (a 503) leaves the page not ready, with the create button and the grid hidden. */
  method UnavailableScenario()
  {
    var page := new Page();
    page.GetData(Replied(false, "Service Unavailable", Unparsable));
    assert page.notReadyStatus == Block && page.readyStatus == Hidden;
    assert page.createButton == Hidden && page.contentArea == Hidden;
  }
}
