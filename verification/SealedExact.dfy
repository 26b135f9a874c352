/** Which files open, byte by byte: a file opens to a manifest exactly when it is a sealed file that tells it. */
module SealedExact {
  import opened Prelude
  import opened HtaData
  import opened HtaGrammar
  import opened SealedLayout
  import opened SealedOpening
  import HtaExact

  // ----- Sealed files -----

  /** The parts of a sealed file, with its numbers as they are written. */
  datatype Parts = Parts(
    host: Bytes, size: Eight, descriptor: Bytes, contents: seq<Bytes>, start: Eight, length: Eight,
    hostDigest: Bytes, payloadDigest: Bytes)

  function PayloadOf(p: Parts): Bytes { p.size + p.descriptor + Concat(p.contents) }

  /** `HARAEXE1`, version 1, four zero bytes, two numbers and two digests. */
  function FooterOf(p: Parts): Bytes {
    [0x48, 0x41, 0x52, 0x41, 0x45, 0x58, 0x45, 0x31] + [0, 0, 0, 1] + [0, 0, 0, 0] + p.start + p.length +
    p.hostDigest + p.payloadDigest
  }

  function FileOf(p: Parts): Bytes { p.host + PayloadOf(p) + FooterOf(p) }

  /** A namespace and a name with one slash between them. */
  ghost predicate IsEntry(entry: string) {
    exists space, name :: Names(entry, space, name)
  }

  predicate Names(entry: string, space: string, name: string) {
    space != "" && name != "" && '/' !in space && '/' !in name && entry == space + "/" + name
  }

  predicate OnlyPrimary(archives: seq<Archive>, i: int) {
    0 <= i < |archives| && forall k :: 0 <= k < |archives| ==> (archives[k].primary <==> k == i)
  }

  /** What a descriptor may say. */
  ghost predicate MaySay(entry: string, archives: seq<Archive>) {
    IsEntry(entry) && archives != [] && (forall i :: 0 <= i < |archives| ==> archives[i].length > 0) &&
    (exists i :: OnlyPrimary(archives, i)) && DistinctIdentities(archives)
  }

  /** The archives lie end to end from a place on, and are what they say. */
  predicate LieAt(lib: Library, archives: seq<Archive>, contents: seq<Bytes>, from: nat) {
    |archives| == |contents| &&
    forall i :: 0 <= i < |archives| ==>
      archives[i].length == |contents[i]| && archives[i].sha256 == (lib.hex)((lib.digest)(contents[i])) &&
      archives[i].offset == from + |Concat(contents[..i])|
  }

  /** The numbers and digests are those of the parts, and the descriptor tells the manifest. */
  ghost predicate Tells(lib: Library, p: Parts, m: Manifest) {
    WideWorth(p.size) == |p.descriptor| && WideWorth(p.start) == |p.host| && WideWorth(p.length) == |PayloadOf(p)| &&
    |p.hostDigest| == 32 && |p.payloadDigest| == 32 &&
    p.hostDigest == (lib.digest)(p.host) && p.payloadDigest == (lib.digest)(PayloadOf(p)) &&
    (lib.parser)(p.descriptor) == Some((m.entry, m.archives)) && MaySay(m.entry, m.archives) &&
    LieAt(lib, m.archives, p.contents, 8 + |p.descriptor|) &&
    m.host == (lib.hex)(p.hostDigest) && m.payload == (lib.hex)(p.payloadDigest)
  }

  // ----- Descriptors -----

  lemma {:induction false} NoSlash(s: string)
    ensures Slashes(s) == 0 <==> '/' !in s
  {
    if s != [] {
      NoSlash(s[1..]);
      assert s == [s[0]] + s[1..];
    }
  }

  lemma {:induction false} SlashesConcat(a: string, b: string)
    ensures Slashes(a + b) == Slashes(a) + Slashes(b)
  {
    if a == [] {
      assert a + b == b;
    } else {
      SlashesConcat(a[1..], b);
      assert (a + b)[1..] == a[1..] + b;
    }
  }

  lemma {:induction false} OneSlash(s: string) returns (a: string, b: string)
    requires Slashes(s) == 1
    ensures s == a + "/" + b && '/' !in a && '/' !in b
  {
    if s[0] == '/' {
      a, b := "", s[1..];
      NoSlash(b);
    } else {
      a, b := OneSlash(s[1..]);
      a := [s[0]] + a;
      assert s == [s[0]] + s[1..];
    }
  }

  lemma EntryIs(entry: string)
    ensures ValidEntry(entry) <==> IsEntry(entry)
  {
    if ValidEntry(entry) {
      var a, b := OneSlash(entry);
      assert Names(entry, a, b);
    }
    if IsEntry(entry) {
      var a, b :| Names(entry, a, b);
      SlashesConcat(a, "/");
      SlashesConcat(a + "/", b);
      NoSlash(a);
      NoSlash(b);
      assert "/"[1..] == "";
      assert a[0] in a && b[|b| - 1] in b;
    }
  }

  lemma {:induction false} PrimariesNone(archives: seq<Archive>)
    ensures Primaries(archives) == 0 <==> forall k :: 0 <= k < |archives| ==> !archives[k].primary
  {
    if archives != [] {
      PrimariesNone(archives[1..]);
      assert forall k :: 0 <= k < |archives[1..]| ==> archives[1..][k] == archives[k + 1];
      assert forall k :: 0 < k < |archives| ==> archives[k] == archives[1..][k - 1];
    }
  }

  lemma {:induction false} PrimariesOne(archives: seq<Archive>)
    ensures Primaries(archives) == 1 <==> exists i :: OnlyPrimary(archives, i)
  {
    if archives != [] {
      var rest := archives[1..];
      PrimariesOne(rest);
      PrimariesNone(rest);
      assert forall k :: 0 <= k < |rest| ==> rest[k] == archives[k + 1];
      assert forall k :: 0 < k < |archives| ==> archives[k] == rest[k - 1];
      if archives[0].primary {
        if Primaries(rest) == 0 { assert OnlyPrimary(archives, 0); }
        forall i | OnlyPrimary(archives, i) ensures i == 0 {}
      } else {
        forall i | OnlyPrimary(rest, i) ensures OnlyPrimary(archives, i + 1) {}
        forall i | OnlyPrimary(archives, i) ensures OnlyPrimary(rest, i - 1) {}
      }
    }
  }

  lemma DescriptorIs(entry: string, archives: seq<Archive>)
    ensures CheckDescriptor(entry, archives).None? <==> MaySay(entry, archives)
  {
    EntryIs(entry);
    PrimariesOne(archives);
    hide ValidEntry, IsEntry, Primaries, OnlyPrimary, DistinctIdentities;
    if i :| 0 <= i < |archives| && archives[i].length == 0 { assert archives[i] in archives; }
  }

  // ----- Archives -----

  lemma {:induction false} LaidAt(archives: seq<Archive>, contents: seq<Bytes>, start: nat, i: nat)
    requires |archives| == |contents| && i < |archives|
    requires forall k :: 0 <= k < |archives| ==> archives[k].length == |contents[k]|
    ensures |Laid(archives, start)| == |archives|
    ensures Laid(archives, start)[i] == archives[i].(offset := start + |Concat(contents[..i])|)
    decreases |archives|
  {
    if i == 0 {
      assert contents[..0] == [];
    } else {
      LaidAt(archives[1..], contents[1..], start + archives[0].length, i - 1);
      assert contents[..i][0] == contents[0] && contents[..i][1..] == contents[1..][..i - 1];
    }
  }

  /** Lying end to end is being laid. */
  lemma LieIsLaid(lib: Library, archives: seq<Archive>, contents: seq<Bytes>, from: nat)
    ensures LieAt(lib, archives, contents, from) <==>
      Describes(lib, archives, contents) && Laid(archives, from) == archives
  {
    hide Concat, Laid;
    if |archives| == |contents| && forall k :: 0 <= k < |archives| ==> archives[k].length == |contents[k]| {
      forall i | 0 <= i < |archives|
        ensures Laid(archives, from)[i] == archives[i].(offset := from + |Concat(contents[..i])|)
      {
        LaidAt(archives, contents, from, i);
      }
      if forall i :: 0 <= i < |archives| ==> archives[i].offset == from + |Concat(contents[..i])| {
        assert Laid(archives, from) == archives;
      }
    }
  }

  // ----- Footers -----

  lemma FooterPlaces(p: Parts)
    requires |p.hostDigest| == 32 && |p.payloadDigest| == 32
    ensures
      var f := FooterOf(p);
      |f| == FOOTER_BYTES && f[..8] == SEALED_MAGIC && f[8..12] == [0, 0, 0, 1] && f[12..16] == [0, 0, 0, 0] &&
      f[16..24] == p.start && f[24..32] == p.length && f[32..64] == p.hostDigest && f[64..96] == p.payloadDigest
  {
  }

  lemma VersionIs(b: Bytes)
    requires |b| == 4
    ensures FromBE(b) == SEALED_VERSION <==> b == [0, 0, 0, 1]
  {
    HtaExact.WorthIs(b);
    hide FromBE;
  }

  lemma FooterRead(front: Bytes, p: Parts)
    requires |p.hostDigest| == 32 && |p.payloadDigest| == 32 && WideWorth(p.start) + WideWorth(p.length) == |front|
    ensures
      ParseFooter(front + FooterOf(p)) ==
      Ok(Some(Footer(WideWorth(p.start), WideWorth(p.length), p.hostDigest, p.payloadDigest)))
  {
    var bytes, f := front + FooterOf(p), FooterOf(p);
    FooterPlaces(p);
    HtaExact.WideIs(p.start);
    HtaExact.WideIs(p.length);
    VersionIs(f[8..12]);
    hide FooterOf, FromBE, WideWorth;
    assert bytes[|bytes| - FOOTER_BYTES..] == f;
  }

  /** The footer of a file that has one. */
  lemma FooterFound(bytes: Bytes)
    requires ParseFooter(bytes).Ok? && ParseFooter(bytes).value.Some?
    ensures
      var f, b := ParseFooter(bytes).value.value, bytes[|bytes| - FOOTER_BYTES..];
      |bytes| >= FOOTER_BYTES && WideWorth(b[16..24]) == f.start && WideWorth(b[24..32]) == f.length &&
      f.host == b[32..64] && f.payload == b[64..96] && f.start + f.length + FOOTER_BYTES == |bytes| &&
      b == SEALED_MAGIC + [0, 0, 0, 1] + [0, 0, 0, 0] + b[16..24] + b[24..32] + b[32..64] + b[64..96]
  {
    var b := bytes[|bytes| - FOOTER_BYTES..];
    HtaExact.WideIs(b[16..24]);
    HtaExact.WideIs(b[24..32]);
    VersionIs(b[8..12]);
    hide FromBE, WideWorth;
    Tiles(b);
  }

  lemma Tiles(b: Bytes)
    requires |b| == 96
    ensures b == b[..8] + b[8..12] + b[12..16] + b[16..24] + b[24..32] + b[32..64] + b[64..96]
  {
  }

  // ----- Payloads -----

  lemma PayloadReads(lib: Library, p: Parts, entry: string, archives: seq<Archive>)
    requires WideWorth(p.size) == |p.descriptor| && (lib.parser)(p.descriptor) == Some((entry, archives))
    requires MaySay(entry, archives) && LieAt(lib, archives, p.contents, 8 + |p.descriptor|)
    ensures OpenPayload(lib, PayloadOf(p)) == Ok((entry, archives))
  {
    DescriptorIs(entry, archives);
    LieIsLaid(lib, archives, p.contents, 8 + |p.descriptor|);
    HtaExact.WideIs(p.size);
    hide WideWorth, FromBE, Concat, MaySay, LieAt, CheckDescriptor, CheckArchives, Describes, Laid;
    var front, payload := p.size + p.descriptor, PayloadOf(p);
    assert payload[..8] == p.size && payload[8..|front|] == p.descriptor;
    ArchivesCheck(lib, front, archives, p.contents);
  }

  /** The parts of a payload that opens. */
  lemma PayloadFound(lib: Library, payload: Bytes, entry: string, archives: seq<Archive>)
    returns (size: Eight, descriptor: Bytes, contents: seq<Bytes>)
    requires OpenPayload(lib, payload) == Ok((entry, archives))
    ensures payload == size + descriptor + Concat(contents) && WideWorth(size) == |descriptor|
    ensures (lib.parser)(descriptor) == Some((entry, archives))
    ensures MaySay(entry, archives) && LieAt(lib, archives, contents, 8 + |descriptor|)
  {
    DescriptorIs(entry, archives);
    hide WideWorth, FromBE, Concat, MaySay, LieAt, CheckDescriptor, CheckArchives, Describes, Laid, Slices;
    size := payload[..8];
    HtaExact.WideIs(size);
    var end := 8 + FromBE(size);
    descriptor := payload[8..end];
    CheckedTiles(lib, payload, end, archives);
    contents := Slices(payload, archives);
    LieIsLaid(lib, archives, contents, end);
    assert payload == payload[..8] + payload[8..end] + payload[end..];
  }

  // ----- Whole files -----

  lemma FileOpens(lib: Library, p: Parts, m: Manifest)
    requires Tells(lib, p, m)
    ensures
      Open(lib, FileOf(p)) ==
      Ok(Some((m, Footer(|p.host|, |PayloadOf(p)|, p.hostDigest, p.payloadDigest))))
  {
    hide WideWorth, MaySay, LieAt, OpenPayload, PayloadOf, FooterOf, ParseFooter;
    var payload := PayloadOf(p);
    var front := p.host + payload;
    FooterRead(front, p);
    PayloadReads(lib, p, m.entry, m.archives);
    var bytes := front + FooterOf(p);
    assert bytes[..|p.host|] == p.host && bytes[|p.host|..|p.host| + |payload|] == payload;
  }

  /** What opening a file has checked. */
  lemma Opened(lib: Library, bytes: Bytes, m: Manifest, f: Footer)
    requires Open(lib, bytes) == Ok(Some((m, f)))
    ensures ParseFooter(bytes) == Ok(Some(f)) && f.start + f.length <= |bytes|
    ensures
      var host, payload := bytes[..f.start], bytes[f.start..f.start + f.length];
      (lib.digest)(host) == f.host && (lib.digest)(payload) == f.payload &&
      OpenPayload(lib, payload) == Ok((m.entry, m.archives)) &&
      m.host == (lib.hex)(f.host) && m.payload == (lib.hex)(f.payload)
  {
    hide OpenPayload, ParseFooter;
  }

  lemma Stretches(bytes: Bytes, a: nat, b: nat)
    requires a <= b <= |bytes|
    ensures bytes == bytes[..a] + bytes[a..b] + bytes[b..]
  {
  }

  lemma FileFound(lib: Library, bytes: Bytes, m: Manifest, f: Footer) returns (p: Parts)
    requires Open(lib, bytes) == Ok(Some((m, f)))
    ensures Tells(lib, p, m) && bytes == FileOf(p)
    ensures f == Footer(|p.host|, |PayloadOf(p)|, p.hostDigest, p.payloadDigest)
  {
    Opened(lib, bytes, m, f);
    FooterFound(bytes);
    hide WideWorth, MaySay, LieAt, OpenPayload, ParseFooter, Concat, Open;
    var b := bytes[|bytes| - FOOTER_BYTES..];
    var end := f.start + f.length;
    var host, payload := bytes[..f.start], bytes[f.start..end];
    var size, descriptor, contents := PayloadFound(lib, payload, m.entry, m.archives);
    p := Parts(host, size, descriptor, contents, b[16..24], b[24..32], b[32..64], b[64..96]);
    Stretches(bytes, f.start, end);
  }

  /** A file opens to a manifest exactly when it is made of parts that tell it. */
  lemma OpensExactly(lib: Library, bytes: Bytes, m: Manifest, f: Footer)
    ensures Open(lib, bytes) == Ok(Some((m, f))) <==>
      exists p: Parts ::
        Tells(lib, p, m) && bytes == FileOf(p) && f == Footer(|p.host|, |PayloadOf(p)|, p.hostDigest, p.payloadDigest)
  {
    hide Tells, FileOf, PayloadOf, Open;
    if p: Parts :|
      Tells(lib, p, m) && bytes == FileOf(p) && f == Footer(|p.host|, |PayloadOf(p)|, p.hostDigest, p.payloadDigest)
    {
      FileOpens(lib, p, m);
    }
    if Open(lib, bytes) == Ok(Some((m, f))) { var p := FileFound(lib, bytes, m, f); }
  }

  /** A file is taken to be unsealed exactly when the letters HARAEXE1 do not stand 96 bytes before its end. */
  lemma UnsealedExactly(lib: Library, bytes: Bytes)
    ensures Open(lib, bytes) == Ok(None) <==>
      |bytes| < 96 || bytes[|bytes| - 96..|bytes| - 88] != [0x48, 0x41, 0x52, 0x41, 0x45, 0x58, 0x45, 0x31]
  {
    hide OpenPayload, FromBE;
    if |bytes| >= 96 {
      var f := bytes[|bytes| - FOOTER_BYTES..];
      assert f[..8] == bytes[|bytes| - 96..|bytes| - 88];
    }
  }
}
