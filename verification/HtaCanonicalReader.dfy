/** The canonical decoder as it runs. */
module HtaCanonicalReader {
  import opened Prelude
  import opened HtaData
  import opened HtaWire
  import opened HtaRebuild
  import opened HtaListing
  import opened HtaCanonical
  import opened HtaAcceptance
  import HtaCodec
  import HtaReaders

  /**
   `decode_canonical`: decode, encode again, compare the bytes.  What the host
   makes of the decoded value is `rebuild`; the answer is that value.
   */
  method DecodeCanonical(ghost h: Host, rebuild: Value -> Value, bytes: Bytes) returns (r: Result<Value, Error>)
    requires Lawful(h) && forall v :: Rebuilt(h, v, rebuild(v))
    ensures r.Ok? <==> DecodeFrame(bytes).Ok? && Accepts(h, bytes, rebuild(DecodeFrame(bytes).value))
    ensures r.Ok? ==> r.value == rebuild(DecodeFrame(bytes).value)
    ensures r.Ok? ==> Regular(h, Canon(r.value)) && EncodeFrame(r.value) == Some(bytes)
    ensures forall v | WellFormed(v) && Readable(v, 0) && EncodeFrame(v) == Some(bytes) && Steady(h, Canon(v)) :: r.Ok?
  {
    hide DecodeFrame, EncodeFrame, Rebuilt, Lawful, Regular, Steady, WellFormed, Readable, Canon;
    AlwaysExactly(h, bytes);
    var decoded := HtaReaders.Decode(bytes);
    if decoded.Err? { return decoded; }
    var value := rebuild(decoded.value);
    var again := HtaCodec.Encode(value);
    if again.Err? { return Err(again.error); }
    if again.value != bytes { return Err(Malformed("noncanonical frame")); }
    AcceptedMeans(h, bytes, value);
    return Ok(value);
  }
}
