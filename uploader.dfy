/**
 * `CloudinaryUploader`: a builder that stores a progress, a success and an
 * error callback, and `start()`, which posts a two-field form (`upload_preset`
 * and `file`) and turns the transfer's events into callback calls and one
 * promise. This revision sends no `api_key`, `timestamp` or `signature`: it
 * is an upload to an unsigned preset and does not call the signing endpoint.
 *
 * The XMLHttpRequest is replaced by its two events, which are methods of
 * `Transfer` (the promise and handlers one `start()` creates): a progress
 * event `(loaded, total)` and a ready-state change `(readyState, status,
 * parsed)`, where `parsed` is what `JSON.parse` made of the body (`None` when
 * it threw). A callback is an identity and whether it throws; the calls made
 * are recorded in `Transfer.calls`.
 */
module Uploader {
  import opened Wrappers
  import opened Js

  // ---------------------------------------------------------------------
  // Values
  // ---------------------------------------------------------------------

  /** A value `JSON.parse` can produce (numbers restricted to integers). */
  datatype Json =
    | JNull
    | JBool(b: bool)
    | JNumber(n: int)
    | JString(s: string)
    | JArray(items: seq<Json>)
    | JObject(members: map<string, Json>)

  predicate Truthy(v: Json)
  {
    match v
    case JNull => false
    case JBool(b) => b
    case JNumber(n) => n != 0
    case JString(s) => s != ""
    case JArray(_) => true
    case JObject(_) => true
  }

  /** `res.public_id`; `None` stands for `undefined`. */
  function PublicId(res: Json): Option<Json>
  {
    if res.JObject? && "public_id" in res.members then Some(res.members["public_id"]) else None
  }

  /** The body survives the check `!res || !res.public_id`: it is truthy and so is its `public_id`. */
  predicate Acceptable(res: Json)
  {
    Truthy(res) && PublicId(res).Some? && Truthy(PublicId(res).value)
  }

  datatype Callback = Callback(id: nat, throws: bool)

  /** What the progress callback receives: `Math.round` of a number that may not be finite. */
  datatype Percent = Percent(value: int) | NaN | Infinity

  /** One invocation of a registered callback, with its argument. */
  datatype Call =
    | ProgressCall(callback: Callback, progress: Percent)
    | SuccessCall(callback: Callback, result: Json)
    | ErrorCall(callback: Callback, httpCode: int)

  /** The value a rejection carries. */
  datatype Rejection = UploadFailed | InvalidResponse | ParseError | CallbackThrew

  datatype PromiseState = Pending | Fulfilled(value: Json) | Rejected(reason: Rejection)

  datatype FormField = FormField(name: string, value: string)

  // ---------------------------------------------------------------------
  // The form
  // ---------------------------------------------------------------------

  const FilePrefix: string := "data:image/png;base64,"

  /**
   * `"data:image/png;base64," + imageData.split(",")[1]`: the piece between
   * the first and the second comma, or `undefined` when there is no comma.
   */
  function FileField(imageData: string): string
  {
    var pieces := Split(imageData, ',');
    FilePrefix + (if |pieces| > 1 then pieces[1] else "undefined")
  }

  function UploadForm(uploadPreset: string, imageData: string): seq<FormField>
  {
    [FormField("upload_preset", uploadPreset), FormField("file", FileField(imageData))]
  }

  /**
   * For a data URI `header,payload` the file field is the payload behind a
   * PNG header, whatever media type the original header named; anything
   * after a second comma is lost.
   */
  lemma FileFieldOfDataUri(header: string, payload: string, rest: string)
    requires ',' !in header && ',' !in payload
    requires rest == [] || rest[0] == ','
    ensures FileField(header + "," + payload + rest) == FilePrefix + payload
  {
    assert header + "," + payload + rest == header + [','] + (payload + rest);
    SplitAfterFree(header, payload + rest, ',');
    SplitFirstPiece(payload, rest, ',');
  }

  /** Without a comma there is no second piece and the field ends in `undefined`. */
  lemma FileFieldWithoutComma(imageData: string)
    requires ',' !in imageData
    ensures FileField(imageData) == FilePrefix + "undefined"
  {
    SplitFree(imageData, ',');
  }

  // ---------------------------------------------------------------------
  // Progress
  // ---------------------------------------------------------------------

  /**
   * `Math.round((loaded * 100.0) / total)`: the nearest integer to the
   * percentage, a half rounding up; `NaN` for 0/0 and `Infinity` for x/0.
   */
  function Progress(loaded: nat, total: nat): (p: Percent)
    ensures total == 0 ==> p == (if loaded == 0 then NaN else Infinity)
    ensures total > 0 ==> p.Percent? && 2 * total * p.value - total <= 200 * loaded < 2 * total * p.value + total
  {
    if total == 0 then (if loaded == 0 then NaN else Infinity)
    else Percent(RoundQuotient(100 * loaded, total))
  }

  /** Within a transfer of known size the percentage lies in 0..100, with both ends reached. */
  lemma ProgressBounded(loaded: nat, total: nat)
    requires 0 < total && loaded <= total
    ensures Progress(loaded, total).Percent?
    ensures 0 <= Progress(loaded, total).value <= 100
    ensures loaded == 0 ==> Progress(loaded, total).value == 0
    ensures loaded == total ==> Progress(loaded, total).value == 100
  {
    RoundQuotientUnique(0, total, 0);
    RoundQuotientUnique(100 * total, total, 100);
    RoundQuotientMonotone(0, 100 * loaded, total);
    RoundQuotientMonotone(100 * loaded, 100 * total, total);
  }

  /** More bytes sent never lowers the reported percentage. */
  lemma ProgressMonotone(l1: nat, l2: nat, total: nat)
    requires 0 < total && l1 <= l2
    ensures Progress(l1, total).value <= Progress(l2, total).value
  {
    RoundQuotientMonotone(100 * l1, 100 * l2, total);
  }

  // ---------------------------------------------------------------------
  // Completion
  // ---------------------------------------------------------------------

  datatype Outcome = Uploaded(result: Json) | Failed(httpCode: int, reason: Rejection)

  /** How a finished transfer ends when no callback throws. */
  function Classify(status: int, parsed: Option<Json>): (o: Outcome)
    ensures o.Uploaded? <==> status == 200 && parsed.Some? && Acceptable(parsed.value)
    ensures o.Uploaded? ==> parsed == Some(o.result)
    ensures o.Failed? ==> o.httpCode == status && (o.reason == UploadFailed <==> status != 200)
    ensures o.Failed? && status == 200 ==> o.reason == (if parsed.None? then ParseError else InvalidResponse)
  {
    if status != 200 then Failed(status, UploadFailed)
    else if parsed.None? then Failed(status, ParseError)
    else if !Acceptable(parsed.value) then Failed(status, InvalidResponse)
    else Uploaded(parsed.value)
  }

  /** `resolve` and `reject` take effect only on a pending promise. */
  function Settle(p: PromiseState, s: PromiseState): PromiseState
  {
    if p.Pending? then s else p
  }

  /**
   * What a completed transfer does: the callback calls, the settlement (if
   * `resolve` or `reject` is reached) and whether an exception escapes the
   * handler.
   */
  datatype Effect = Effect(calls: seq<Call>, settlement: Option<PromiseState>, uncaught: bool)

  /** The error callback (if any) gets `http_code`, then the promise is rejected, unless it throws. */
  function ErrorPath(error: Option<Callback>, code: int, reason: Rejection): Effect
  {
    if error.None? then Effect([], Some(Rejected(reason)), false)
    else if !error.value.throws then Effect([ErrorCall(error.value, code)], Some(Rejected(reason)), false)
    else Effect([ErrorCall(error.value, code)], None, true)
  }

  /**
   * The effect of the outcome given the registered callbacks. A throwing
   * callback inside the `try` lands in the `catch`, which calls the error
   * callback once more and rejects.
   */
  function CompletionEffect(success: Option<Callback>, error: Option<Callback>, o: Outcome): Effect
  {
    match o
    case Failed(code, reason) =>
      var e := ErrorPath(error, code, reason);
      if reason == InvalidResponse && e.uncaught then
        Effect(e.calls + ErrorPath(error, code, CallbackThrew).calls, None, true)
      else e
    case Uploaded(res) =>
      if success.None? then Effect([], Some(Fulfilled(res)), false)
      else if !success.value.throws then Effect([SuccessCall(success.value, res)], Some(Fulfilled(res)), false)
      else
        var e := ErrorPath(error, 200, CallbackThrew);
        Effect([SuccessCall(success.value, res)] + e.calls, e.settlement, e.uncaught)
  }

  predicate Returns(cb: Option<Callback>) { cb.None? || !cb.value.throws }

  /**
   * With callbacks that return normally, a completed transfer settles the
   * promise, nothing escapes, and at most one callback fires: the success
   * callback exactly when the promise is fulfilled (with the body it was
   * given), the error callback exactly when it is rejected (with the HTTP
   * status as `http_code`). With both registered exactly one fires.
   */
  lemma ExactlyOneOutcome(success: Option<Callback>, error: Option<Callback>, status: int, parsed: Option<Json>)
    requires Returns(success) && Returns(error)
    ensures var o := Classify(status, parsed);
      var e := CompletionEffect(success, error, o);
      && e.settlement.Some? && !e.uncaught
      && |e.calls| <= 1
      && (success.Some? && error.Some? ==> |e.calls| == 1)
      && (e.settlement.value.Fulfilled? <==> o.Uploaded?)
      && (o.Uploaded? ==> e.settlement.value == Fulfilled(o.result) && parsed == Some(o.result))
      && (forall i :: 0 <= i < |e.calls| ==>
            (e.calls[i].SuccessCall? <==> e.settlement.value.Fulfilled?)
            && (e.calls[i].SuccessCall? ==> e.calls[i] == SuccessCall(success.value, e.settlement.value.value))
            && (e.calls[i].ErrorCall? ==> e.calls[i] == ErrorCall(error.value, status)))
  {
  }

  /**
   * As written, a success callback that throws is followed by the error
   * callback (with `http_code` 200) and a rejection: both callbacks fire.
   */
  lemma ThrowingSuccessCallbackAlsoFiresError(success: Callback, error: Callback, res: Json)
    requires success.throws && !error.throws && Acceptable(res)
    ensures CompletionEffect(Some(success), Some(error), Classify(200, Some(res)))
      == Effect([SuccessCall(success, res), ErrorCall(error, 200)], Some(Rejected(CallbackThrew)), false)
  {
  }

  /**
   * As written, an error callback that throws escapes the handler before
   * `reject`: the promise is never settled. Inside the `try` (an invalid
   * body) it is called a second time from the `catch`.
   */
  lemma ThrowingErrorCallbackNeverSettles(success: Option<Callback>, error: Callback, status: int, parsed: Option<Json>)
    requires error.throws && !Classify(status, parsed).Uploaded?
    ensures var e := CompletionEffect(success, Some(error), Classify(status, parsed));
      && e.settlement.None? && e.uncaught
      && (forall i :: 0 <= i < |e.calls| ==> e.calls[i] == ErrorCall(error, status))
      && |e.calls| == (if Classify(status, parsed).reason == InvalidResponse then 2 else 1)
  {
  }

  // ---------------------------------------------------------------------
  // The objects
  // ---------------------------------------------------------------------

  class CloudinaryUploader {
    var progressCallback: Option<Callback>
    var successCallback: Option<Callback>
    var errorCallback: Option<Callback>
    var imageData: string
    var uploadPreset: string

    constructor (imageData: string, uploadPreset: string)
      ensures this.imageData == imageData && this.uploadPreset == uploadPreset
      ensures progressCallback.None? && successCallback.None? && errorCallback.None?
    {
      this.imageData := imageData;
      this.uploadPreset := uploadPreset;
      progressCallback, successCallback, errorCallback := None, None, None;
    }

    method OnProgress(callback: Callback) returns (self: CloudinaryUploader)
      modifies this`progressCallback
      ensures self == this && progressCallback == Some(callback)
      ensures successCallback == old(successCallback) && errorCallback == old(errorCallback)
    {
      progressCallback := Some(callback);
      self := this;
    }

    method OnSuccess(callback: Callback) returns (self: CloudinaryUploader)
      modifies this`successCallback
      ensures self == this && successCallback == Some(callback)
      ensures progressCallback == old(progressCallback) && errorCallback == old(errorCallback)
    {
      successCallback := Some(callback);
      self := this;
    }

    method OnError(callback: Callback) returns (self: CloudinaryUploader)
      modifies this`errorCallback
      ensures self == this && errorCallback == Some(callback)
      ensures progressCallback == old(progressCallback) && successCallback == old(successCallback)
    {
      errorCallback := Some(callback);
      self := this;
    }

    /** Builds the form and a pending transfer whose handlers read this uploader's callbacks. */
    method Start() returns (t: Transfer)
      ensures fresh(t) && t.owner == this
      ensures t.form == UploadForm(uploadPreset, imageData)
      ensures t.promise == Pending && t.calls == []
    {
      var formData: seq<FormField> := [];
      formData := formData + [FormField("upload_preset", uploadPreset)];
      var pieces := Split(imageData, ',');
      var base64Data := if |pieces| > 1 then pieces[1] else "undefined";
      formData := formData + [FormField("file", FilePrefix + base64Data)];
      t := new Transfer(this, formData);
    }
  }

  /** `cloudinary.upload(imageData, uploadPreset)`. */
  method Upload(imageData: string, uploadPreset: string) returns (u: CloudinaryUploader)
    ensures fresh(u) && u.imageData == imageData && u.uploadPreset == uploadPreset
    ensures u.progressCallback.None? && u.successCallback.None? && u.errorCallback.None?
  {
    u := new CloudinaryUploader(imageData, uploadPreset);
  }

  /** One `start()`: its promise, its form and the callback calls its handlers made. */
  class Transfer {
    const owner: CloudinaryUploader
    const form: seq<FormField>
    var promise: PromiseState
    var calls: seq<Call>

    constructor (owner: CloudinaryUploader, form: seq<FormField>)
      ensures this.owner == owner && this.form == form
      ensures promise == Pending && calls == []
    {
      this.owner := owner;
      this.form := form;
      promise := Pending;
      calls := [];
    }

    /** The upload's `progress` listener. */
    method OnUploadProgress(loaded: nat, total: nat) returns (uncaught: bool)
      modifies this`calls
      ensures owner.progressCallback.None? ==> calls == old(calls) && !uncaught
      ensures owner.progressCallback.Some? ==>
        calls == old(calls) + [ProgressCall(owner.progressCallback.value, Progress(loaded, total))]
        && uncaught == owner.progressCallback.value.throws
    {
      var progress := Progress(loaded, total);
      uncaught := false;
      if owner.progressCallback.Some? {
        calls := calls + [ProgressCall(owner.progressCallback.value, progress)];
        uncaught := owner.progressCallback.value.throws;
      }
    }

    /**
     * `xhr.onreadystatechange`: nothing before state 4; then the effect of
     * the outcome, and a promise settled once and for all.
     */
    method OnReadyStateChange(readyState: int, status: int, parsed: Option<Json>) returns (uncaught: bool)
      modifies this`promise, this`calls
      ensures readyState != 4 ==> promise == old(promise) && calls == old(calls) && !uncaught
      ensures readyState == 4 ==>
        var e := CompletionEffect(owner.successCallback, owner.errorCallback, Classify(status, parsed));
        && calls == old(calls) + e.calls
        && uncaught == e.uncaught
        && promise == (if e.settlement.Some? then Settle(old(promise), e.settlement.value) else old(promise))
      ensures old(promise) != Pending ==> promise == old(promise)
    {
      uncaught := false;
      if readyState != 4 {
        return;
      }
      if status != 200 {
        if owner.errorCallback.Some? {
          calls := calls + [ErrorCall(owner.errorCallback.value, status)];
          if owner.errorCallback.value.throws {
            uncaught := true;
            return;
          }
        }
        promise := Settle(promise, Rejected(UploadFailed));
        return;
      }
      // the try block
      var caught := false;
      var reason := ParseError;
      if parsed.None? {
        caught := true;
      } else {
        var res := parsed.value;
        if !Truthy(res) || PublicId(res).None? || !Truthy(PublicId(res).value) {
          if owner.errorCallback.Some? {
            calls := calls + [ErrorCall(owner.errorCallback.value, status)];
            caught := owner.errorCallback.value.throws;
            reason := CallbackThrew;
          }
          if !caught {
            promise := Settle(promise, Rejected(InvalidResponse));
            return;
          }
        } else {
          if owner.successCallback.Some? {
            calls := calls + [SuccessCall(owner.successCallback.value, res)];
            caught := owner.successCallback.value.throws;
            reason := CallbackThrew;
          }
          if !caught {
            promise := Settle(promise, Fulfilled(res));
            return;
          }
        }
      }
      // the catch block
      if owner.errorCallback.Some? {
        calls := calls + [ErrorCall(owner.errorCallback.value, status)];
        if owner.errorCallback.value.throws {
          uncaught := true;
          return;
        }
      }
      promise := Settle(promise, Rejected(reason));
    }
  }
}
