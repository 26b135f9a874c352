/** The sealing steps as they run: places rewritten round by round, a footer filled in, archives checked in turn. */
module SealedExecutable {
  import opened Prelude
  import opened HtaData
  import opened SealedLayout
  import opened SealedLaws
  import opened SealedOpening

  /** Assigns places one after the other, or reports that they do not fit. */
  method LayArchives(archives: seq<Archive>, length: nat) returns (r: Result<seq<Archive>, SealedLayout.Error>)
    ensures r == if RoundFits(archives, length) then Ok(Laid(archives, HEADER_BYTES + length)) else Err(PayloadTooLarge)
  {
    hide Laid;
    var laid := archives;
    var start: nat := HEADER_BYTES + length;
    var place: nat := start;
    var fits := true;
    var i := 0;
    LaidNone(archives, start);
    while i < |archives|
      invariant 0 <= i <= |archives| && |laid| == |archives|
      invariant place == start + TotalLength(archives[..i])
      invariant laid[..i] == Laid(archives, start)[..i] && laid[i..] == archives[i..]
      invariant fits <==> PlacesFit(archives, start, i)
    {
      LaidAt(archives, start, i);
      TotalNext(archives, i);
      assert laid[i] == laid[i..][0];
      laid := laid[i := laid[i].(offset := place)];
      assert laid[..i + 1] == laid[..i] + [laid[i]];
      assert Laid(archives, start)[..i + 1] == Laid(archives, start)[..i] + [Laid(archives, start)[i]];
      fits := fits && place < TWO_63 && archives[i].length < TWO_63;
      place := place + archives[i].length;
      i := i + 1;
    }
    assert archives[..i] == archives && laid[..i] == laid && Laid(archives, start)[..i] == Laid(archives, start);
    FitsMeans(archives, length);
    if !fits || place >= TWO_64 { return Err(PayloadTooLarge); }
    return Ok(laid);
  }

  lemma LaidNone(archives: seq<Archive>, start: nat)
    ensures archives[..0] == [] && TotalLength(archives[..0]) == 0 && Laid(archives, start)[..0] == []
  {
  }

  lemma {:induction false} LaidAt(archives: seq<Archive>, start: nat, i: nat)
    requires i < |archives|
    ensures Laid(archives, start)[i] == archives[i].(offset := start + TotalLength(archives[..i]))
    decreases |archives|
  {
    if i > 0 {
      LaidAt(archives[1..], start + archives[0].length, i - 1);
      assert archives[..i][1..] == archives[1..][..i - 1];
    } else {
      assert archives[..0] == [];
    }
  }

  lemma {:induction false} TotalNext(archives: seq<Archive>, i: nat)
    requires i < |archives|
    ensures TotalLength(archives[..i + 1]) == TotalLength(archives[..i]) + archives[i].length
    decreases |archives|
  {
    if i == 0 {
      assert archives[..1] == [archives[0]] && [archives[0]][1..] == [];
      assert archives[..0] == [];
    } else {
      TotalNext(archives[1..], i - 1);
      assert archives[..i + 1][1..] == archives[1..][..i] && archives[..i][1..] == archives[1..][..i - 1];
    }
  }

  predicate PlacesFit(archives: seq<Archive>, start: nat, n: nat)
    requires n <= |archives|
  {
    forall k :: 0 <= k < n ==> Laid(archives, start)[k].offset < TWO_63 && archives[k].length < TWO_63
  }

  lemma FitsMeans(archives: seq<Archive>, length: nat)
    ensures RoundFits(archives, length) <==>
      PlacesFit(archives, HEADER_BYTES + length, |archives|) && HEADER_BYTES + length + TotalLength(archives) < TWO_64
  {
    LaidIsSame(archives, HEADER_BYTES + length);
    hide Laid;
    var laid := Laid(archives, HEADER_BYTES + length);
    forall k | 0 <= k < |laid| ensures laid[k] in laid && laid[k].length == archives[k].length {}
  }

  /** `sealed_descriptor_fixed_point`: the archives come back where the descriptor puts them. */
  method DescriptorFixedPoint(lib: Library, entry: string, archives: seq<Archive>)
    returns (r: Result<Bytes, SealedLayout.Error>, placed: seq<Archive>)
    ensures r == FixedPoint(lib, entry, archives, 0, ROUNDS)
    ensures r.Ok? ==> placed == Laid(archives, HEADER_BYTES + |r.value|) && r.value == (lib.printer)(entry, placed)
  {
    hide Laid, RoundFits;
    placed := archives;
    var length: nat := 0;
    var round := 0;
    while round < ROUNDS
      invariant 0 <= round <= ROUNDS
      invariant FixedPoint(lib, entry, archives, length, ROUNDS - round) == FixedPoint(lib, entry, archives, 0, ROUNDS)
    {
      var laid := LayArchives(archives, length);
      if laid.Err? { return Err(laid.error), placed; }
      placed := laid.value;
      var descriptor := (lib.printer)(entry, placed);
      if |descriptor| == length { return Ok(descriptor), placed; }
      length := |descriptor|;
      round := round + 1;
    }
    return Err(NoConvergence), placed;
  }

  /** Copies bytes into a buffer, as `copy_from_slice` does. */
  method CopyInto(buffer: array<Byte>, at: nat, data: Bytes)
    requires at + |data| <= buffer.Length
    modifies buffer
    ensures buffer[..] == old(buffer[..at]) + data + old(buffer[at + |data|..])
  {
    var i := 0;
    while i < |data|
      invariant 0 <= i <= |data|
      invariant buffer[..at] == old(buffer[..at]) && buffer[at..at + i] == data[..i]
      invariant buffer[at + i..] == old(buffer[at + i..])
    {
      buffer[at + i] := data[i];
      assert buffer[at..at + i + 1] == buffer[at..at + i] + [data[i]];
      assert data[..i + 1] == data[..i] + [data[i]];
      assert buffer[at + i + 1..] == old(buffer[at + i..])[1..];
      i := i + 1;
    }
    assert data[..i] == data;
    assert buffer[..] == buffer[..at] + buffer[at..at + |data|] + buffer[at + |data|..];
  }

  /** `sealed_footer`: a zeroed buffer with each field copied to its place. */
  method SealedFooter(start: nat, length: nat, host: Bytes, payload: Bytes) returns (footer: Bytes)
    requires |host| == 32 && |payload| == 32 && start < TWO_64 && length < TWO_64
    ensures footer == FooterBytes(start, length, host, payload)
  {
    hide BE;
    var buffer := new Byte[FOOTER_BYTES](_ => 0);
    var zeros := seq(FOOTER_BYTES, _ => 0 as Byte);
    assert buffer[..] == zeros;
    CopyInto(buffer, 0, SEALED_MAGIC);
    ghost var s1 := SEALED_MAGIC;
    assert buffer[..] == s1 + zeros[8..] by { assert zeros[..0] == []; }
    CopyInto(buffer, 8, BE(SEALED_VERSION, 4));
    ghost var s2 := s1 + BE(SEALED_VERSION, 4);
    FieldPut(s1, zeros[8..], BE(SEALED_VERSION, 4));
    assert buffer[..] == s2 + zeros[12..];
    ghost var s3 := s2 + [0, 0, 0, 0];
    assert zeros[12..] == [0, 0, 0, 0] + zeros[16..];
    assert buffer[..] == s3 + zeros[16..];
    CopyInto(buffer, 16, BE(start, 8));
    ghost var s4 := s3 + BE(start, 8);
    FieldPut(s3, zeros[16..], BE(start, 8));
    assert buffer[..] == s4 + zeros[24..];
    CopyInto(buffer, 24, BE(length, 8));
    ghost var s5 := s4 + BE(length, 8);
    FieldPut(s4, zeros[24..], BE(length, 8));
    assert buffer[..] == s5 + zeros[32..];
    CopyInto(buffer, 32, host);
    FieldPut(s5, zeros[32..], host);
    assert buffer[..] == s5 + host + zeros[64..];
    CopyInto(buffer, 64, payload);
    FieldPut(s5 + host, zeros[64..], payload);
    assert zeros[96..] == [];
    footer := buffer[..];
  }

  /** Overwriting the front of what follows a prefix. */
  lemma FieldPut(front: Bytes, rest: Bytes, data: Bytes)
    requires |data| <= |rest|
    ensures (front + rest)[..|front|] + data + (front + rest)[|front| + |data|..] == front + data + rest[|data|..]
  {
  }

  /** `validate_sealed_archives`. */
  method ValidateArchives(
    lib: Library, payload: Bytes, end: nat, archives: seq<Archive>) returns (r: Option<SealedLayout.Error>)
    requires end <= |payload|
    ensures r == CheckArchives(lib, payload, end, archives)
    ensures r.None? ==>
      (forall a <- archives :: a.offset + a.length <= |payload|) &&
      Concat(Slices(payload, archives)) == payload[end..]
  {
    if CheckArchives(lib, payload, end, archives).None? { CheckedTiles(lib, payload, end, archives); }
    hide Checksum, Slices, Concat;
    var previous: nat := end;
    var i := 0;
    assert archives[0..] == archives;
    while i < |archives|
      invariant 0 <= i <= |archives|
      invariant CheckArchives(lib, payload, previous, archives[i..]) == CheckArchives(lib, payload, end, archives)
    {
      var a := archives[i];
      assert archives[i..][1..] == archives[i + 1..];
      if a.offset != previous { return Some(NotContiguous); }
      var next := a.offset + a.length;
      if next > |payload| { return Some(ArchiveRange); }
      if Checksum(lib, payload[a.offset..next]) != a.sha256 { return Some(ArchiveDigest); }
      previous := next;
      i := i + 1;
    }
    if previous != |payload| { return Some(TrailingBytes); }
    return None;
  }
}
