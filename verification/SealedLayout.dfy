/**
 The layout of a sealed executable (`distribution.rs`): host, payload, footer;
 in the payload a length, a descriptor that gives every archive's place, and
 the archives. The descriptor contains its own consequences: the longer it is,
 the larger the places it must print.

 The digest and the descriptor's text are taken from `Library`.
 */
module SealedLayout {
  import opened Prelude
  import opened HtaData

  const SEALED_MAGIC: Bytes := [0x48, 0x41, 0x52, 0x41, 0x45, 0x58, 0x45, 0x31]
  const SEALED_VERSION := 1
  const FOOTER_BYTES := 96
  const HEADER_BYTES := 8
  const ROUNDS := 16

  datatype Archive =
    Archive(identity: string, version: string, sha256: string, offset: nat, length: nat, primary: bool)

  datatype Manifest = Manifest(entry: string, archives: seq<Archive>, host: string, payload: string)

  datatype Footer = Footer(start: nat, length: nat, host: Bytes, payload: Bytes)

  datatype Error =
    | PayloadTooLarge | NoConvergence | BadVersion | ReservedBytes | BadRange | HostDigest | PayloadDigest | NoHeader
    | DescriptorRange | BadDescriptor | BadEntry | NoArchives | EmptyArchive | PrimaryCount | DuplicateIdentity
    | NotContiguous | ArchiveRange | ArchiveDigest | TrailingBytes

  /** The digest, its text form, and the descriptor's printer and parser. */
  datatype Library = Library(
    digest: Bytes -> Bytes,
    hex: Bytes -> string,
    printer: (string, seq<Archive>) -> Bytes,
    parser: Bytes -> Option<(string, seq<Archive>)>)

  function Checksum(lib: Library, b: Bytes): string { (lib.hex)((lib.digest)(b)) }

  // ----- Places -----

  /** Archives laid end to end from a place on. */
  function Laid(archives: seq<Archive>, start: nat): (r: seq<Archive>)
    ensures |r| == |archives|
  {
    if archives == [] then []
    else [archives[0].(offset := start)] + Laid(archives[1..], start + archives[0].length)
  }

  function TotalLength(archives: seq<Archive>): nat {
    if archives == [] then 0 else archives[0].length + TotalLength(archives[1..])
  }

  /** One round: lay the archives after a descriptor of the given length and print. */
  function Describe(lib: Library, entry: string, archives: seq<Archive>, length: nat): Bytes {
    (lib.printer)(entry, Laid(archives, HEADER_BYTES + length))
  }

  /** All places and lengths are 63-bit numbers and the end is a 64-bit one. */
  predicate RoundFits(archives: seq<Archive>, length: nat) {
    HEADER_BYTES + length + TotalLength(archives) < TWO_64 &&
    forall a <- Laid(archives, HEADER_BYTES + length) :: a.offset < TWO_63 && a.length < TWO_63
  }

  /** `sealed_descriptor_fixed_point` from a length on, with so many rounds left. */
  function FixedPoint(lib: Library, entry: string, archives: seq<Archive>, length: nat, rounds: nat)
    : Result<Bytes, Error>
    decreases rounds
  {
    if rounds == 0 then Err(NoConvergence)
    else if !RoundFits(archives, length) then Err(PayloadTooLarge)
    else
      var d := Describe(lib, entry, archives, length);
      if |d| == length then Ok(d) else FixedPoint(lib, entry, archives, |d|, rounds - 1)
  }

  // ----- Sealing -----

  function Concat(contents: seq<Bytes>): Bytes {
    if contents == [] then [] else contents[0] + Concat(contents[1..])
  }

  function Payload(descriptor: Bytes, contents: seq<Bytes>): Bytes {
    BE(|descriptor|, 8) + descriptor + Concat(contents)
  }

  function FooterBytes(start: nat, length: nat, host: Bytes, payload: Bytes): Bytes {
    SEALED_MAGIC + BE(SEALED_VERSION, 4) + [0, 0, 0, 0] + BE(start, 8) + BE(length, 8) + host + payload
  }

  function Sealed(lib: Library, host: Bytes, payload: Bytes): Bytes {
    host + payload + FooterBytes(|host|, |payload|, (lib.digest)(host), (lib.digest)(payload))
  }

  // ----- Opening -----

  /** `parse_sealed_footer`: None for a file that is not sealed. */
  function ParseFooter(bytes: Bytes): Result<Option<Footer>, Error> {
    if |bytes| < FOOTER_BYTES then Ok(None)
    else
      var f := bytes[|bytes| - FOOTER_BYTES..];
      if f[..8] != SEALED_MAGIC then Ok(None)
      else if FromBE(f[8..12]) != SEALED_VERSION then Err(BadVersion)
      else if f[12..16] != [0, 0, 0, 0] then Err(ReservedBytes)
      else
        var start, length := FromBE(f[16..24]), FromBE(f[24..32]);
        if start + length != |bytes| - FOOTER_BYTES then Err(BadRange)
        else Ok(Some(Footer(start, length, f[32..64], f[64..96])))
  }

  function Slashes(s: string): nat {
    if s == [] then 0 else (if s[0] == '/' then 1 else 0) + Slashes(s[1..])
  }

  /** One slash with something on both sides. */
  predicate ValidEntry(s: string) { Slashes(s) == 1 && s[0] != '/' && s[|s| - 1] != '/' }

  function Primaries(archives: seq<Archive>): nat {
    if archives == [] then 0 else (if archives[0].primary then 1 else 0) + Primaries(archives[1..])
  }

  predicate DistinctIdentities(archives: seq<Archive>) {
    forall i, j :: 0 <= i < j < |archives| ==> archives[i].identity != archives[j].identity
  }

  /** What a descriptor must say, whatever its text. */
  function CheckDescriptor(entry: string, archives: seq<Archive>): Option<Error> {
    if !ValidEntry(entry) then Some(BadEntry)
    else if archives == [] then Some(NoArchives)
    else if exists a :: a in archives && a.length == 0 then Some(EmptyArchive)
    else if Primaries(archives) != 1 then Some(PrimaryCount)
    else if !DistinctIdentities(archives) then Some(DuplicateIdentity)
    else None
  }

  /** `validate_sealed_archives`, from an archive and the end of the one before. */
  function CheckArchives(lib: Library, payload: Bytes, end: nat, archives: seq<Archive>): Option<Error>
    decreases |archives|
  {
    if archives == [] then if end == |payload| then None else Some(TrailingBytes)
    else
      var a := archives[0];
      if a.offset != end then Some(NotContiguous)
      else if end + a.length > |payload| then Some(ArchiveRange)
      else if Checksum(lib, payload[end..end + a.length]) != a.sha256 then Some(ArchiveDigest)
      else CheckArchives(lib, payload, end + a.length, archives[1..])
  }

  function OpenPayload(lib: Library, payload: Bytes): Result<(string, seq<Archive>), Error> {
    if |payload| < HEADER_BYTES then Err(NoHeader)
    else
      var end := HEADER_BYTES + FromBE(payload[..HEADER_BYTES]);
      if end > |payload| then Err(DescriptorRange)
      else
        match (lib.parser)(payload[HEADER_BYTES..end])
        case None => Err(BadDescriptor)
        case Some(d) =>
          if CheckDescriptor(d.0, d.1).Some? then Err(CheckDescriptor(d.0, d.1).value)
          else if CheckArchives(lib, payload, end, d.1).Some? then Err(CheckArchives(lib, payload, end, d.1).value)
          else Ok(d)
  }

  /** `parse_sealed_bytes`. */
  function Open(lib: Library, bytes: Bytes): Result<Option<(Manifest, Footer)>, Error> {
    match ParseFooter(bytes)
    case Err(e) => Err(e)
    case Ok(None) => Ok(None)
    case Ok(Some(f)) =>
      if f.start + f.length > |bytes| then Err(BadRange)
      else
        var host, payload := bytes[..f.start], bytes[f.start..f.start + f.length];
        if (lib.digest)(host) != f.host then Err(HostDigest)
        else if (lib.digest)(payload) != f.payload then Err(PayloadDigest)
        else
          match OpenPayload(lib, payload)
          case Err(e) => Err(e)
          case Ok(d) => Ok(Some((Manifest(d.0, d.1, Checksum(lib, host), Checksum(lib, payload)), f)))
  }

  /** `archive_bytes`. */
  function ArchiveBytes(payload: Bytes, a: Archive): Option<Bytes> {
    if a.offset + a.length <= |payload| then Some(payload[a.offset..a.offset + a.length]) else None
  }

  /** The host step of `seal`: a sealed file gives up its host, another is one. */
  function HostOf(lib: Library, bytes: Bytes): Result<Bytes, Error> {
    match Open(lib, bytes)
    case Err(e) => Err(e)
    case Ok(None) => Ok(bytes)
    case Ok(Some(found)) => if found.1.start <= |bytes| then Ok(bytes[..found.1.start]) else Err(BadRange)
  }
}
