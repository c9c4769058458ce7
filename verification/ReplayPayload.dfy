/** sn/replay-payload.ts: the size-bounded value the ledger keeps for a completed mutation and
    hands back on replay. */
module ReplayPayload {
  import opened Utf8

  /** A JSON value. Objects compare as maps: key order carries no meaning in JSON. */
  datatype Json =
    | Null
    | Bool(b: bool)
    | Num(n: real)
    | Str(text: Utf16)
    | Arr(items: seq<Json>)
    | Obj(fields: map<string, Json>)

  /** JSON.stringify and JSON.parse, which are library calls. */
  datatype JsonText = JsonText(stringify: Json -> Utf16, parse: Utf16 -> Json)

  /** parse gives this value back from its text. */
  predicate RoundTrips(lib: JsonText, v: Json) { lib.parse(lib.stringify(v)) == v }

  const MUTATION_REPLAY_MAX_BYTES: nat := 96 * 1024

  function PayloadFields(truncated: bool, totalBytes: real, text: Utf16): map<string, Json> {
    map["truncated" := Bool(truncated), "totalBytes" := Num(totalBytes), "serializedResult" := Str(text)]
  }

  function Wrapper(truncated: bool, totalBytes: real, text: Utf16): Json {
    Obj(PayloadFields(truncated, totalBytes, text)["replaySafe" := Bool(true)])
  }

  predicate HasPayload(v: Json) {
    v.Obj? &&
    "truncated" in v.fields && v.fields["truncated"].Bool? &&
    "totalBytes" in v.fields && v.fields["totalBytes"].Num? &&
    "serializedResult" in v.fields && v.fields["serializedResult"].Str? &&
    |Encode(v.fields["serializedResult"].text)| <= MUTATION_REPLAY_MAX_BYTES
  }

  /** What visibleReplayResult returns for a truncated wrapper, recognised when it comes back. */
  predicate IsTruncatedReplayPayload(v: Json) {
    HasPayload(v) && v.fields["truncated"].b && v.fields.Keys == {"truncated", "totalBytes", "serializedResult"}
  }

  predicate IsReplaySafeWrapper(v: Json) {
    HasPayload(v) &&
    "replaySafe" in v.fields && v.fields["replaySafe"] == Bool(true) &&
    v.fields.Keys == {"replaySafe", "truncated", "totalBytes", "serializedResult"}
  }

  function ReplaySafeResult(lib: JsonText, v: Json): Json {
    if IsReplaySafeWrapper(v) then v
    else if IsTruncatedReplayPayload(v) then
      Wrapper(true, v.fields["totalBytes"].n, v.fields["serializedResult"].text)
    else
      var text := lib.stringify(v);
      var size := |Encode(text)|;
      Wrapper(size > MUTATION_REPLAY_MAX_BYTES, size as real, HostTruncated(text, MUTATION_REPLAY_MAX_BYTES))
  }

  function VisibleReplayResult(lib: JsonText, w: Json): Json
    requires IsReplaySafeWrapper(w)
  {
    if w.fields["truncated"].b then
      Obj(PayloadFields(true, w.fields["totalBytes"].n, w.fields["serializedResult"].text))
    else lib.parse(w.fields["serializedResult"].text)
  }

  // ---------------------------------------------------------------- properties

  lemma WrapperIsWrapper(truncated: bool, totalBytes: real, text: Utf16)
    requires |Encode(text)| <= MUTATION_REPLAY_MAX_BYTES
    ensures IsReplaySafeWrapper(Wrapper(truncated, totalBytes, text))
    ensures !IsTruncatedReplayPayload(Wrapper(truncated, totalBytes, text))
  {
    assert "replaySafe" in Wrapper(truncated, totalBytes, text).fields.Keys;
  }

  /** Any result of any size becomes a wrapper whose payload is within the cap; wrapping it again
      (on storing, and on every later read of the record) changes nothing. */
  lemma ReplaySafeIsWrapperAndIdempotent(lib: JsonText, v: Json)
    ensures IsReplaySafeWrapper(ReplaySafeResult(lib, v))
    ensures ReplaySafeResult(lib, ReplaySafeResult(lib, v)) == ReplaySafeResult(lib, v)
    ensures var w := ReplaySafeResult(lib, v);
      && w.Obj? && w.fields.Keys == {"replaySafe", "truncated", "totalBytes", "serializedResult"}
      && w.fields["serializedResult"].Str? && |Encode(w.fields["serializedResult"].text)| <= 98_304
  {
    if IsTruncatedReplayPayload(v) {
      WrapperIsWrapper(true, v.fields["totalBytes"].n, v.fields["serializedResult"].text);
    } else if !IsReplaySafeWrapper(v) {
      var text := lib.stringify(v);
      HostTruncatedFits(text, MUTATION_REPLAY_MAX_BYTES);
      WrapperIsWrapper(|Encode(text)| > MUTATION_REPLAY_MAX_BYTES, |Encode(text)| as real,
        HostTruncated(text, MUTATION_REPLAY_MAX_BYTES));
    }
  }

  /** The caller sees the original result exactly when its text fits the cap or it already is a
      truncated payload; otherwise it sees a truncated payload. (A result that itself has the
      wrapper's shape is taken for a wrapper and is outside this statement.) */
  lemma VisibleIsOriginal(lib: JsonText, v: Json)
    requires RoundTrips(lib, v) && !IsReplaySafeWrapper(v)
    ensures IsReplaySafeWrapper(ReplaySafeResult(lib, v))
    ensures VisibleReplayResult(lib, ReplaySafeResult(lib, v)) == v
       <==> |Encode(lib.stringify(v))| <= MUTATION_REPLAY_MAX_BYTES || IsTruncatedReplayPayload(v)
    ensures VisibleReplayResult(lib, ReplaySafeResult(lib, v)) == v
         || IsTruncatedReplayPayload(VisibleReplayResult(lib, ReplaySafeResult(lib, v)))
  {
    ReplaySafeIsWrapperAndIdempotent(lib, v);
    var w := ReplaySafeResult(lib, v);
    var seen := VisibleReplayResult(lib, w);
    if IsTruncatedReplayPayload(v) {
      assert seen.fields == v.fields;
    } else if |Encode(lib.stringify(v))| > MUTATION_REPLAY_MAX_BYTES {
      assert IsTruncatedReplayPayload(seen);
    } else {
      assert w.fields["serializedResult"].text == lib.stringify(v);
    }
  }

  /** What the caller sees instead of a result over the cap: its length in bytes and its longest beginning
      of whole characters that fits 98304 bytes. */
  lemma OversizeIsCut(lib: JsonText, v: Json)
    requires !IsReplaySafeWrapper(v) && !IsTruncatedReplayPayload(v) && |Encode(lib.stringify(v))| > 98_304
    ensures IsReplaySafeWrapper(ReplaySafeResult(lib, v))
    ensures VisibleReplayResult(lib, ReplaySafeResult(lib, v)) == Obj(map[
      "truncated" := Bool(true), "totalBytes" := Num(|Encode(lib.stringify(v))| as real),
      "serializedResult" := Str(HostTruncated(lib.stringify(v), 98_304))])
  {
    ReplaySafeIsWrapperAndIdempotent(lib, v);
  }

  /** A result with the wrapper's own shape is not shown as it was: the payload inside it is. */
  lemma WrapperShapedResultIsReinterpreted(lib: JsonText, text: Utf16)
    requires RoundTrips(lib, Null) && text == lib.stringify(Null)
    requires |Encode(text)| <= MUTATION_REPLAY_MAX_BYTES
    ensures var v := Wrapper(false, 0.0, text);
      IsReplaySafeWrapper(v) && VisibleReplayResult(lib, ReplaySafeResult(lib, v)) == Null != v
  {
    WrapperIsWrapper(false, 0.0, text);
  }
}
