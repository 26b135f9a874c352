/** Sealing and then opening; and what any file that opens looks like. */
module SealedOpening {
  import opened Prelude
  import opened HtaData
  import opened SealedLayout
  import opened SealedLaws

  // ----- The footer -----

  lemma FooterParts(start: nat, length: nat, host: Bytes, payload: Bytes)
    requires |host| == 32 && |payload| == 32
    ensures var f := FooterBytes(start, length, host, payload);
      |f| == FOOTER_BYTES && f[..8] == SEALED_MAGIC && f[8..12] == BE(SEALED_VERSION, 4) &&
      f[12..16] == [0, 0, 0, 0] && f[16..24] == BE(start, 8) && f[24..32] == BE(length, 8) &&
      f[32..64] == host && f[64..96] == payload
  {
    hide BE;
  }

  lemma FooterReads(front: Bytes, start: nat, length: nat, host: Bytes, payload: Bytes)
    requires |host| == 32 && |payload| == 32 && start < TWO_64 && length < TWO_64 && start + length == |front|
    ensures ParseFooter(front + FooterBytes(start, length, host, payload)) ==
            Ok(Some(Footer(start, length, host, payload)))
  {
    hide BE, FromBE, FooterBytes;
    var f := FooterBytes(start, length, host, payload);
    FooterParts(start, length, host, payload);
    BE64(start);
    BE64(length);
    BE32(SEALED_VERSION);
    var bytes := front + f;
    assert bytes[|bytes| - FOOTER_BYTES..] == f;
  }

  // ----- The archives -----

  /** The archives describe the contents. */
  predicate Describes(lib: Library, archives: seq<Archive>, contents: seq<Bytes>) {
    |archives| == |contents| &&
    forall i :: 0 <= i < |archives| ==>
      archives[i].length == |contents[i]| && archives[i].sha256 == Checksum(lib, contents[i])
  }

  lemma {:induction false} ArchivesCheck(lib: Library, front: Bytes, archives: seq<Archive>, contents: seq<Bytes>)
    requires Describes(lib, archives, contents)
    ensures CheckArchives(lib, front + Concat(contents), |front|, Laid(archives, |front|)) == None
    decreases |archives|
  {
    hide Checksum;
    var payload := front + Concat(contents);
    if archives == [] {
      assert payload == front;
    } else {
      var a, c := archives[0], contents[0];
      ArchivesCheck(lib, front + c, archives[1..], contents[1..]);
      assert payload == front + c + Concat(contents[1..]);
      assert payload[|front|..|front| + a.length] == c;
      assert Laid(archives, |front|)[1..] == Laid(archives[1..], |front| + a.length);
    }
  }

  /** Each laid archive holds its content. */
  lemma {:induction false} ArchiveHolds(
    lib: Library, front: Bytes, archives: seq<Archive>, contents: seq<Bytes>, i: nat)
    requires Describes(lib, archives, contents) && i < |archives|
    ensures ArchiveBytes(front + Concat(contents), Laid(archives, |front|)[i]) == Some(contents[i])
    decreases |archives|
  {
    hide Checksum;
    var payload := front + Concat(contents);
    var c := contents[0];
    assert payload == front + c + Concat(contents[1..]);
    if i == 0 {
      assert payload[|front|..|front| + |c|] == c;
    } else {
      ArchiveHolds(lib, front + c, archives[1..], contents[1..], i - 1);
    }
  }

  lemma {:induction false} LaidPrimaries(archives: seq<Archive>, start: nat)
    ensures Primaries(Laid(archives, start)) == Primaries(archives)
    decreases |archives|
  {
    if archives != [] {
      LaidPrimaries(archives[1..], start + archives[0].length);
      assert Laid(archives, start)[1..] == Laid(archives[1..], start + archives[0].length);
    }
  }

  /** The checks on a descriptor do not look at places. */
  lemma LaidDescriptor(entry: string, archives: seq<Archive>, start: nat)
    ensures CheckDescriptor(entry, Laid(archives, start)) == CheckDescriptor(entry, archives)
  {
    LaidIsSame(archives, start);
    LaidPrimaries(archives, start);
    hide Laid, Primaries, ValidEntry;
    var laid := Laid(archives, start);
    forall i | 0 <= i < |archives|
      ensures laid[i].length == archives[i].length && laid[i].identity == archives[i].identity
    {
    }
    if a :| a in archives && a.length == 0 {
      var i :| 0 <= i < |archives| && archives[i] == a;
      assert laid[i] in laid;
    }
    if a :| a in laid && a.length == 0 {
      var i :| 0 <= i < |laid| && laid[i] == a;
      assert archives[i] in archives;
    }
  }

  // ----- Sealing, then opening -----

  /** The parser reads back what the printer wrote for these archives, wherever laid. */
  ghost predicate ParsesBack(lib: Library, entry: string, archives: seq<Archive>) {
    forall laid | SameArchives(laid, archives) :: (lib.parser)((lib.printer)(entry, laid)) == Some((entry, laid))
  }

  lemma PayloadParts(descriptor: Bytes, contents: seq<Bytes>)
    requires |descriptor| < TWO_64
    ensures var payload := Payload(descriptor, contents);
      |payload| >= HEADER_BYTES + |descriptor| && FromBE(payload[..HEADER_BYTES]) == |descriptor| &&
      payload[HEADER_BYTES..HEADER_BYTES + |descriptor|] == descriptor &&
      payload == BE(|descriptor|, 8) + descriptor + Concat(contents) &&
      |BE(|descriptor|, 8) + descriptor| == HEADER_BYTES + |descriptor|
  {
    hide BE, FromBE, Concat;
    BE64(|descriptor|);
    var payload := Payload(descriptor, contents);
    assert payload[..HEADER_BYTES] == BE(|descriptor|, 8);
  }

  lemma PayloadOpens(lib: Library, entry: string, archives: seq<Archive>, contents: seq<Bytes>, descriptor: Bytes)
    requires Describes(lib, archives, contents) && ParsesBack(lib, entry, archives)
    requires descriptor == Describe(lib, entry, archives, |descriptor|) && |descriptor| < TWO_64
    ensures OpenPayload(lib, Payload(descriptor, contents)) ==
      match CheckDescriptor(entry, archives)
      case Some(e) => Err(e)
      case None => Ok((entry, Laid(archives, HEADER_BYTES + |descriptor|)))
  {
    hide BE, FromBE, Concat, Payload, Describes, CheckArchives, CheckDescriptor, Laid;
    var start := HEADER_BYTES + |descriptor|;
    PayloadParts(descriptor, contents);
    LaidIsSame(archives, start);
    LaidDescriptor(entry, archives, start);
    ArchivesCheck(lib, BE(|descriptor|, 8) + descriptor, archives, contents);
  }

  /** What was sealed comes out again, each archive in its place, exactly when the descriptor may say what it says. */
  lemma SealThenOpen(lib: Library, host: Bytes, entry: string, archives: seq<Archive>, contents: seq<Bytes>)
    requires Describes(lib, archives, contents) && ParsesBack(lib, entry, archives)
    requires forall b :: |(lib.digest)(b)| == 32
    requires FixedPoint(lib, entry, archives, 0, ROUNDS).Ok?
    ensures
      var d := FixedPoint(lib, entry, archives, 0, ROUNDS).value;
      var payload := Payload(d, contents);
      var laid := Laid(archives, HEADER_BYTES + |d|);
      |host| < TWO_64 ==>
      Open(lib, Sealed(lib, host, payload)) ==
        match CheckDescriptor(entry, archives)
        case Some(e) => Err(e)
        case None =>
          Ok(Some((Manifest(entry, laid, Checksum(lib, host), Checksum(lib, payload)),
                   Footer(|host|, |payload|, (lib.digest)(host), (lib.digest)(payload)))))
  {
    var d := FixedPoint(lib, entry, archives, 0, ROUNDS).value;
    FixedPointIsFixed(lib, entry, archives, 0, ROUNDS);
    PayloadSize(lib, archives, contents, d);
    hide Describes, ParsesBack, FixedPoint, Describe, RoundFits, Payload, FooterBytes, ParseFooter, OpenPayload,
         CheckDescriptor, Laid, Checksum;
    var payload := Payload(d, contents);
    PayloadOpens(lib, entry, archives, contents, d);
    if |host| < TWO_64 {
      var front := host + payload;
      FooterReads(front, |host|, |payload|, (lib.digest)(host), (lib.digest)(payload));
      var footer := FooterBytes(|host|, |payload|, (lib.digest)(host), (lib.digest)(payload));
      var bytes := front + footer;
      assert bytes == Sealed(lib, host, payload);
      assert bytes[..|host|] == host && bytes[|host|..|host| + |payload|] == payload;
    }
  }

  lemma {:induction false} ConcatLength(lib: Library, archives: seq<Archive>, contents: seq<Bytes>)
    requires Describes(lib, archives, contents)
    ensures |Concat(contents)| == TotalLength(archives)
    decreases |archives|
  {
    hide Checksum;
    if archives != [] { ConcatLength(lib, archives[1..], contents[1..]); }
  }

  lemma PayloadSize(lib: Library, archives: seq<Archive>, contents: seq<Bytes>, d: Bytes)
    requires Describes(lib, archives, contents) && RoundFits(archives, |d|)
    ensures |Payload(d, contents)| == HEADER_BYTES + |d| + TotalLength(archives) < TWO_64
  {
    hide BE;
    ConcatLength(lib, archives, contents);
  }

  /** Every content is found where the manifest says. */
  lemma SealedContents(lib: Library, entry: string, archives: seq<Archive>, contents: seq<Bytes>, i: nat)
    requires Describes(lib, archives, contents) && i < |archives| && FixedPoint(lib, entry, archives, 0, ROUNDS).Ok?
    ensures
      var d := FixedPoint(lib, entry, archives, 0, ROUNDS).value;
      ArchiveBytes(Payload(d, contents), Laid(archives, HEADER_BYTES + |d|)[i]) == Some(contents[i])
  {
    var d := FixedPoint(lib, entry, archives, 0, ROUNDS).value;
    FixedPointIsFixed(lib, entry, archives, 0, ROUNDS);
    assert |d| < TWO_64;
    hide BE, FromBE, Concat, Describes, FixedPoint, RoundFits, ArchiveBytes, Laid;
    PayloadParts(d, contents);
    ArchiveHolds(lib, BE(|d|, 8) + d, archives, contents, i);
  }

  /** Sealing a sealed file again starts from the first host. */
  lemma ResealKeepsHost(lib: Library, host: Bytes, entry: string, archives: seq<Archive>, contents: seq<Bytes>)
    requires Describes(lib, archives, contents) && ParsesBack(lib, entry, archives)
    requires forall b :: |(lib.digest)(b)| == 32
    requires FixedPoint(lib, entry, archives, 0, ROUNDS).Ok? && CheckDescriptor(entry, archives).None?
    requires |host| < TWO_64
    ensures
      var d := FixedPoint(lib, entry, archives, 0, ROUNDS).value;
      HostOf(lib, Sealed(lib, host, Payload(d, contents))) == Ok(host)
  {
    hide Describes, ParsesBack, FixedPoint, Payload, FooterBytes, Open, CheckDescriptor, Laid;
    SealThenOpen(lib, host, entry, archives, contents);
    var d := FixedPoint(lib, entry, archives, 0, ROUNDS).value;
    var bytes := Sealed(lib, host, Payload(d, contents));
    assert bytes[..|host|] == host;
  }

  // ----- Whatever opens -----

  /** The slices the archives claim. */
  function Slices(payload: Bytes, archives: seq<Archive>): seq<Bytes>
    requires forall a <- archives :: a.offset + a.length <= |payload|
  {
    if archives == [] then []
    else
      assert archives[0] in archives;
      [payload[archives[0].offset..archives[0].offset + archives[0].length]] + Slices(payload, archives[1..])
  }

  /** Archives that pass the check tile the payload from `end` on, and match their digests. */
  lemma {:induction false} CheckedTiles(lib: Library, payload: Bytes, end: nat, archives: seq<Archive>)
    requires end <= |payload| && CheckArchives(lib, payload, end, archives).None?
    ensures forall a <- archives :: a.offset + a.length <= |payload|
    ensures archives == Laid(archives, end)
    ensures Concat(Slices(payload, archives)) == payload[end..]
    ensures Describes(lib, archives, Slices(payload, archives))
    decreases |archives|
  {
    hide Checksum;
    if archives != [] {
      var a := archives[0];
      CheckedTiles(lib, payload, end + a.length, archives[1..]);
      assert archives == [a] + archives[1..];
      assert payload[end..] == payload[end..end + a.length] + payload[end + a.length..];
      assert Slices(payload, archives) == [payload[end..end + a.length]] + Slices(payload, archives[1..]);
      assert Slices(payload, archives)[1..] == Slices(payload, archives[1..]);
    } else {
      assert payload[end..] == [];
    }
  }

  /** A file that opens is its host, a descriptor, its archives end to end and a footer, with nothing left over. */
  lemma OpenedTiles(lib: Library, bytes: Bytes)
    requires Open(lib, bytes).Ok? && Open(lib, bytes).value.Some?
    ensures
      var (m, f) := Open(lib, bytes).value.value;
      f.start + f.length + FOOTER_BYTES == |bytes| &&
      var payload := bytes[f.start..f.start + f.length];
      HEADER_BYTES <= |payload| &&
      var end := HEADER_BYTES + FromBE(payload[..HEADER_BYTES]);
      end <= |payload| && m.archives == Laid(m.archives, end) &&
      (forall a <- m.archives :: a.offset + a.length <= |payload|) &&
      payload == payload[..end] + Concat(Slices(payload, m.archives)) &&
      Describes(lib, m.archives, Slices(payload, m.archives))
  {
    hide CheckDescriptor, Laid, Checksum, FromBE, Describes, CheckArchives, Concat, Slices;
    var (m, f) := Open(lib, bytes).value.value;
    var payload := bytes[f.start..f.start + f.length];
    var end := HEADER_BYTES + FromBE(payload[..HEADER_BYTES]);
    CheckedTiles(lib, payload, end, m.archives);
    assert payload == payload[..end] + payload[end..];
  }
}
