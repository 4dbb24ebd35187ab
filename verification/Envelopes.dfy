/** tools/omp_tools/envelope.py: the envelope around a body, with its checksum. */
module Envelopes {
  import opened Wrappers
  import opened JsonModel
  import opened Canonical
  import opened CanonicalForm

  const CORE_SCHEMAS: set<string> := {"machine", "event", "process_run", "energy", "telemetry"}

  const OMP_VERSION := "0.1.0"

  datatype Envelope = Envelope(
    ompVersion: string,
    profile: string,
    gatewayId: string,
    machineId: string,
    seqNo: int,
    ts: string,
    schema: string,
    body: Json,
    checksum: string,
    sig: Option<string>)

  // The triple on which consumers deduplicate.
  datatype Key = Key(gatewayId: string, machineId: string, seqNo: int)

  function KeyOf(e: Envelope): Key {
    Key(e.gatewayId, e.machineId, e.seqNo)
  }

  datatype BuildError = UnknownSchema(schema: string) | BadNumber(error: NumberError)

  // SHA-256 is any function of the canonical text.
  function Checksum(body: Json, hash: string -> string): Result<string, NumberError> {
    match Canonicalize(body)
    case Ok(text) => Ok(hash(text))
    case Err(e) => Err(e)
  }

  function MakeEnvelope(schema: string, body: Json, profile: string, gatewayId: string,
                        machineId: string, seqNo: int, ts: string, hash: string -> string)
    : Result<Envelope, BuildError>
  {
    if schema !in CORE_SCHEMAS then Err(UnknownSchema(schema))
    else match Checksum(body, hash)
      case Err(e) => Err(BadNumber(e))
      case Ok(sum) =>
        Ok(Envelope(OMP_VERSION, profile, gatewayId, machineId, seqNo, ts, schema, body, sum, None))
  }

  // The checksum is the hash of the canonical text and of nothing else, ...
  lemma ChecksumIff(body: Json, hash: string -> string, sum: string)
    ensures Checksum(body, hash) == Ok(sum) <==> Canonicalize(body).Ok? && hash(Canonicalize(body).value) == sum
    ensures Checksum(body, hash).Ok? <==> WholeNumbers(body)
  {
    CanonicalizesIff(body);
  }

  // ... so it is one for all ways to write a value, and a hash that never collides tells values apart.
  lemma ChecksumIdentifies(a: Json, b: Json, hash: string -> string)
    requires WellFormed(a) && WellFormed(b) && WholeNumbers(a) && WholeNumbers(b)
    ensures SameJson(a, b) ==> Checksum(a, hash) == Checksum(b, hash)
    ensures (forall s, t :: hash(s) == hash(t) ==> s == t) && Checksum(a, hash) == Checksum(b, hash) ==> SameJson(a, b)
  {
    CanonicalizesIff(a);
    CanonicalizesIff(b);
    CanonicalTextIdentifies(a, b);
  }
}
