/** Which requests and responses are accepted. */
module EngineResponses {
  // (backend/app/engine/contracts.py) The frames of both directions, entry by entry.

  import opened Text
  import opened Json
  import opened Dictionary
  import opened EngineContracts
  import opened EngineConstructors

  ghost predicate HoldsRequest(f: seq<Field>, r: EngineRequest) {
    && KeySet(f) == {KEY_ENGINE_PROTOCOL_VERSION, KEY_REQUEST_ID, KEY_METHOD, KEY_NONCE, KEY_PARAMS}
    && Get(f, KEY_ENGINE_PROTOCOL_VERSION) == Int(2) && Get(f, KEY_REQUEST_ID) == Text(r.requestId)
    && Get(f, KEY_METHOD) == Text(MethodName(r.verb)) && Get(f, KEY_NONCE) == Text(r.nonce)
    && HoldsParams(Get(f, KEY_PARAMS), r)
  }

  /** A frame is read as a request exactly if it holds a valid one, in at most 4 KiB where it notifies of a job. */
  lemma RequestReadExactly(payload: Bytes, r: EngineRequest)
    ensures DecodeRequest(payload) == Ok(r)
      <==> && ValidRequest(r) && DecodeJson(payload, 1024 * 1024).Ok?
           && HoldsRequest(DecodeJson(payload, 1024 * 1024).value, r)
           && (r.verb == JobNotify ==> |payload| <= 4 * 1024)
  {
    if DecodeJson(payload, 1024 * 1024).Ok? {
      var f := DecodeJson(payload, 1024 * 1024).value;
      if KeySet(f) == RequestKeys() {
        RequestExactly(Get(f, KEY_ENGINE_PROTOCOL_VERSION), Get(f, KEY_REQUEST_ID), Get(f, KEY_METHOD),
          Get(f, KEY_NONCE), Get(f, KEY_PARAMS), r);
        if Get(f, KEY_METHOD).Text? { MethodExactly(Get(f, KEY_METHOD).s, r.verb); }
      }
    }
    hide DecodeJson, KeySet, Get, NewRequest, ValidRequest, HoldsParams, MethodName, MethodNamed, Lit;
  }

  /** A launch is written exactly if its canonical line can be encoded and has at most 4 KiB. */
  lemma LaunchWrittenExactly(l: WorkerLaunch, payload: Bytes)
    ensures LaunchToBytes(l) == Ok(payload)
      <==> CanonicalBytes(LaunchPayload(l), true) == Ok(payload) && |payload| <= 4 * 1024
  {
    hide CanonicalBytes, LaunchPayload;
  }

  // ---------------------------------------------------------------- responses

  ghost predicate Headed(f: seq<Field>, id: Str) {
    && KeySet(f) == {KEY_ENGINE_PROTOCOL_VERSION, KEY_REQUEST_ID, KEY_OK, KEY_DATA, KEY_ERROR}
    && Get(f, KEY_ENGINE_PROTOCOL_VERSION) == Int(2) && Get(f, KEY_REQUEST_ID) == Text(id)
  }

  /** A success: data and no error. */
  ghost predicate HoldsData(f: seq<Field>, id: Str) {
    Headed(f, id) && Get(f, KEY_OK) == Bool(true) && Get(f, KEY_DATA).Obj? && Get(f, KEY_ERROR) == Null
  }

  ghost predicate IsError(error: seq<Field>) {
    KeySet(error) == {KEY_CODE} && Get(error, KEY_CODE).Text? && Bounded(Get(error, KEY_CODE).s, 128)
  }

  /** A failure: an error that holds its code only, and no data. */
  ghost predicate HoldsError(f: seq<Field>, id: Str) {
    Headed(f, id) && Get(f, KEY_OK) == Bool(false) && Get(f, KEY_DATA) == Null
    && Get(f, KEY_ERROR).Obj? && IsError(Get(f, KEY_ERROR).fields)
  }

  /** A frame is read as the response to a request exactly if it is a success or a failure of that request. */
  lemma ResponseReadExactly(payload: Bytes, id: Str, f: seq<Field>)
    ensures DecodeResponse(payload, id) == Ok(f)
      <==> DecodeJson(payload, 1024 * 1024) == Ok(f) && (HoldsData(f, id) || HoldsError(f, id))
  {
    hide DecodeJson, KeySet, Get, Lit;
  }

  /** A response is encoded exactly if it has either data or a proper error, and its frame fits. */
  lemma ResponseWrittenExactly(id: Str, data: Option<seq<Field>>, error: Option<seq<Field>>)
    ensures EncodeResponse(id, data, error).Ok?
      <==> && Bounded(id, 128) && (data.Some? <==> error.None?) && (error.Some? ==> IsError(error.value))
           && CanonicalBytes(ResponsePayload(id, data, error), false).Ok?
           && |CanonicalBytes(ResponsePayload(id, data, error), false).value| <= 1024 * 1024
  {
    hide CanonicalBytes, ResponsePayload, KeySet, Get, Lit;
  }
}
