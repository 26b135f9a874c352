/**
 Which frames the canonical decoder accepts, for every host that keeps the laws
 of equality and order.
 */
module HtaAcceptance {
  import opened Prelude
  import opened HtaData
  import opened HtaWire
  import opened HtaLaws
  import opened HtaSoundness
  import opened HtaRebuild
  import opened HtaListing
  import opened HtaSettling
  import opened HtaRebuiltSound
  import opened HtaCanonical

  /** `decode_canonical` where the host has made `w` of the value in the frame. */
  ghost predicate Accepts(h: Host, b: Bytes, w: Value) {
    DecodeFrame(b).Ok? && Rebuilt(h, DecodeFrame(b).value, w) && EncodeFrame(w) == Some(b)
  }

  /** Accepted, whatever the host makes of the value. */
  ghost predicate AlwaysAccepts(h: Host, b: Bytes) {
    DecodeFrame(b).Ok? && forall w | Rebuilt(h, DecodeFrame(b).value, w) :: EncodeFrame(w) == Some(b)
  }

  /** Accepted for something the host may make of it. */
  ghost predicate MayAccept(h: Host, b: Bytes) { exists w :: Accepts(h, b, w) }

  lemma FineFrame(w: Value)
    requires Fine(w, 0, 0)
    ensures WellFormed(w) && Readable(w, 0) && Encodable(w, 0)
  {
  }

  /** An accepted frame is one the encoder made, and holds a canonical, regular value. */
  lemma AcceptedMeans(h: Host, b: Bytes, w: Value)
    requires Lawful(h) && Accepts(h, b, w)
    ensures
      var v := DecodeFrame(b).value;
      Fine(v, 0, 0) && Fine(w, 0, 0) && Canon(w) == v && Canon(v) == v && EncodeFrame(v) == Some(b) && Regular(h, v)
  {
    hide DecodeFrame, EncodeFrame, WellFormed, Readable, Encodable, Canon, Rebuilt, Lawful, Regular;
    var v := DecodeFrame(b).value;
    DecodedIsSound(b);
    RebuiltReplaces(h, v, w);
    assert Fine(v, 0, 0);
    FineFrame(w);
    FrameRelists(w);
    CanonStable(w);
    RebuiltRegular(h, v, w);
  }

  lemma SameFrame(v: Value, w: Value)
    requires Encodable(v, 0) && Encodable(w, 0)
    ensures Wire(w) == Wire(v) ==> EncodeFrame(w) == EncodeFrame(v)
    ensures EncodeFrame(v).Some? && EncodeFrame(w) == EncodeFrame(v) ==> Wire(w) == Wire(v)
  {
    hide Wire, Encodable;
    Unframed(Wire(v), Wire(w));
  }

  lemma Unframed(a: Bytes, b: Bytes)
    ensures MAGIC + a == MAGIC + b ==> a == b
  {
    assert (MAGIC + a)[4..] == a && (MAGIC + b)[4..] == b;
  }

  /** A frame made of a value decodes to its canonical form, which is fine. */
  lemma MadeFrame(v: Value, b: Bytes)
    requires WellFormed(v) && Readable(v, 0) && EncodeFrame(v) == Some(b)
    ensures DecodeFrame(b) == Ok(Canon(v)) && Fine(Canon(v), 0, 0) && EncodeFrame(Canon(v)) == Some(b)
  {
    hide DecodeFrame, EncodeFrame, WellFormed, Readable, Encodable, Canon;
    FrameRelists(v);
    DecodedIsSound(b);
  }

  /**
   A frame is accepted whatever the host does exactly when the encoder makes it
   of a readable value whose canonical form is steady: at every level no key
   twice, sorted kinds in order, and no difference between entries that may
   change places.
   */
  lemma AlwaysExactly(h: Host, b: Bytes)
    requires Lawful(h)
    ensures AlwaysAccepts(h, b) <==>
      exists v :: WellFormed(v) && Readable(v, 0) && EncodeFrame(v) == Some(b) && Steady(h, Canon(v))
  {
    hide DecodeFrame, EncodeFrame, WellFormed, Readable, Encodable, Canon, Rebuilt, Lawful, Steady, Wire;
    if AlwaysAccepts(h, b) {
      var v := DecodeFrame(b).value;
      RebuiltExists(h, v);
      var w :| Rebuilt(h, v, w);
      AcceptedMeans(h, b, w);
      FineFrame(v);
      forall w' | Rebuilt(h, v, w') ensures Wire(w') == Wire(v) {
        AcceptedMeans(h, b, w');
        FineFrame(w');
        SameFrame(v, w');
      }
      KeptSteady(h, v, 0, 0);
    }
    if v :| WellFormed(v) && Readable(v, 0) && EncodeFrame(v) == Some(b) && Steady(h, Canon(v)) {
      MadeFrame(v, b);
      SteadyKept(h, Canon(v));
      FineFrame(Canon(v));
      forall w | Rebuilt(h, Canon(v), w) ensures EncodeFrame(w) == Some(b) {
        RebuiltReplaces(h, Canon(v), w);
        FineFrame(w);
        SameFrame(Canon(v), w);
      }
    }
  }

  /** It is accepted possibly exactly when that canonical form is regular; any other frame is always refused. */
  lemma MayExactly(h: Host, b: Bytes)
    requires Lawful(h)
    ensures MayAccept(h, b) <==>
      exists v :: WellFormed(v) && Readable(v, 0) && EncodeFrame(v) == Some(b) && Regular(h, Canon(v))
  {
    hide DecodeFrame, EncodeFrame, WellFormed, Readable, Encodable, Canon, Rebuilt, Lawful, Regular, Wire;
    if w :| Accepts(h, b, w) {
      AcceptedMeans(h, b, w);
      FineFrame(DecodeFrame(b).value);
    }
    if v :| WellFormed(v) && Readable(v, 0) && EncodeFrame(v) == Some(b) && Regular(h, Canon(v)) {
      MadeFrame(v, b);
      RegularCanKeep(h, Canon(v));
      var w :| Rebuilt(h, Canon(v), w) && Wire(w) == Wire(Canon(v));
      RebuiltReplaces(h, Canon(v), w);
      FineFrame(w);
      FineFrame(Canon(v));
      SameFrame(Canon(v), w);
      assert Accepts(h, b, w);
    }
  }

  // ----- The host's own values -----

  lemma {:induction false} RegularCanon(h: Host, v: Value)
    requires Regular(h, v)
    ensures Regular(h, Canon(v))
    decreases v
  {
    hide Parts, Canon, Proper, Wire;
    ProperCanon(h, v);
    CanonParts(v);
    var c := Canon(v);
    forall i | 0 <= i < |Parts(c)| ensures (PartSmaller(c, i); Regular(h, Parts(c)[i])) {
      PartSmaller(c, i);
      assert Parts(c)[i] in Parts(c);
      var z :| z in Parts(v) && Parts(c)[i] == Canon(z);
      var k :| 0 <= k < |Parts(v)| && Parts(v)[k] == z;
      PartSmaller(v, k);
      RegularCanon(h, z);
    }
  }

  /**
   What the host holds is regular as it is visited.  Its frame may be accepted,
   and always is exactly when no two entries that may change places differ.
   */
  lemma OwnFrame(h: Host, v: Value, b: Bytes)
    requires Lawful(h) && Regular(h, v) && WellFormed(v) && Readable(v, 0) && EncodeFrame(v) == Some(b)
    ensures MayAccept(h, b) && (AlwaysAccepts(h, b) <==> Steady(h, Canon(v)))
  {
    hide DecodeFrame, EncodeFrame, WellFormed, Readable, Encodable, Canon, Rebuilt, Lawful, Regular, Steady, Wire;
    RegularCanon(h, v);
    MayExactly(h, b);
    AlwaysExactly(h, b);
    MadeFrame(v, b);
    if v' :| WellFormed(v') && Readable(v', 0) && EncodeFrame(v') == Some(b) && Steady(h, Canon(v')) {
      MadeFrame(v', b);
    }
  }
}
