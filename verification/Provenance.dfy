/** Result manifests: a canonical digest over eight fields and a signature over
    their canonical text (src/hermes_mcp_bridge/provenance.py). `text` stands for
    the JSON text of a value and `hash` for SHA-256 of a text. */
module Provenance {
  import opened Wrappers
  import opened CanonicalJson
  import opened Sorting
  import opened Signing

  /** The eight covered fields. */
  datatype Content = Content(
    executionId: string, sessionId: Option<string>, status: string,
    schemaVersions: Json, timestamps: Json, toolManifestHashes: Json, claims: Json, artifactRefs: Json)

  datatype Manifest = Manifest(content: Content, digest: Option<string>, status: string, signature: Option<string>)

  datatype Primitives = Primitives(text: Json -> string, hash: string -> string, mac: Mac)

  ghost predicate IdealPrimitives(p: Primitives) {
    && TextDetermines(p.text) && Ideal(p.mac)
    && (forall a, b {:trigger p.hash(a), p.hash(b)} :: p.hash(a) == p.hash(b) ==> a == b)
  }

  ghost predicate ContentWellFormed(c: Content) {
    && WellFormed(c.schemaVersions) && WellFormed(c.timestamps) && WellFormed(c.toolManifestHashes)
    && WellFormed(c.claims) && WellFormed(c.artifactRefs)
  }

  function CanonicalFields(c: Content): (fs: seq<Field>)
    ensures |fs| == 8
  {
    [Field("execution_id", Str(c.executionId)),
     Field("session_id", if c.sessionId.None? then Null else Str(c.sessionId.value)),
     Field("status", Str(c.status)),
     Field("schema_versions", c.schemaVersions),
     Field("timestamps", c.timestamps),
     Field("tool_manifest_hashes", c.toolManifestHashes),
     Field("claims", c.claims),
     Field("artifact_refs", c.artifactRefs)]
  }

  /** `_normalize` then the JSON text: keys sorted at every depth, arrays as given.
      The signed payload is the same text, its keys sorted by the encoder. */
  function Payload(c: Content, p: Primitives): string {
    p.text(Canon(Obj(CanonicalFields(c)), true, p.text))
  }

  function Digest(c: Content, p: Primitives): string { p.hash(Payload(c, p)) }

  function Build(c: Content, env: Env, now: int, p: Primitives): Result<Manifest, Complaint> {
    match Sign(Payload(c, p), env, now, p.mac)
    case Err(e) => Err(e)
    case Ok(s) => Ok(Manifest(c, Some(Digest(c, p)), s.status, if s.signature == "" then None else Some(s.signature)))
  }

  function VerifyManifest(m: Manifest, env: Env, now: int, p: Primitives): bool {
    if m.digest != Some(Digest(m.content, p)) then false
    else if m.status == UNSIGNED then m.signature.None? || m.signature.value == ""
    else Verify(Payload(m.content, p), if m.signature.None? then "" else m.signature.value, env, now, p.mac)
  }

  /** Equal up to the order of object keys at every depth, field by field. */
  ghost predicate SameContent(c: Content, d: Content) {
    && c.executionId == d.executionId && c.sessionId == d.sessionId && c.status == d.status
    && Equiv(c.schemaVersions, d.schemaVersions, true) && Equiv(c.timestamps, d.timestamps, true)
    && Equiv(c.toolManifestHashes, d.toolManifestHashes, true)
    && Equiv(c.claims, d.claims, true) && Equiv(c.artifactRefs, d.artifactRefs, true)
  }

  /** With the same distinct names in the same order, fields pair off in place. */
  lemma {:induction false} EquivFieldsInPlace(fs: seq<Field>, gs: seq<Field>)
    requires |fs| == |gs| && forall i :: 0 <= i < |fs| ==> fs[i].name == gs[i].name
    requires forall i, j :: 0 <= i < j < |fs| ==> fs[i].name != fs[j].name
    ensures EquivFields(fs, gs, true) <==> forall i :: 0 <= i < |fs| ==> Equiv(fs[i].value, gs[i].value, true)
    decreases |fs|
  {
    if fs != [] {
      EquivFieldsInPlace(fs[1..], gs[1..]);
      assert Without(gs, 0) == gs[1..];
      assert forall k :: 0 < k < |gs| ==> fs[0].name != gs[k].name;
      if EquivFields(fs, gs, true) {
        forall i | 0 <= i < |fs| ensures Equiv(fs[i].value, gs[i].value, true) {
          if i > 0 { assert Equiv(fs[1..][i - 1].value, gs[1..][i - 1].value, true); }
        }
      }
    }
  }

  ghost predicate SamePositions(fs: seq<Field>, gs: seq<Field>)
    requires |fs| == |gs| == 8
  {
    && Equiv(fs[0].value, gs[0].value, true) && Equiv(fs[1].value, gs[1].value, true)
    && Equiv(fs[2].value, gs[2].value, true) && Equiv(fs[3].value, gs[3].value, true)
    && Equiv(fs[4].value, gs[4].value, true) && Equiv(fs[5].value, gs[5].value, true)
    && Equiv(fs[6].value, gs[6].value, true) && Equiv(fs[7].value, gs[7].value, true)
  }

  lemma EightFieldsEquiv(fs: seq<Field>, gs: seq<Field>)
    requires |fs| == |gs| == 8 && forall i :: 0 <= i < 8 ==> fs[i].name == gs[i].name
    requires forall i, j :: 0 <= i < j < 8 ==> fs[i].name != fs[j].name
    ensures Equiv(Obj(fs), Obj(gs), true) <==> SamePositions(fs, gs)
  {
    EquivFieldsInPlace(fs, gs);
    if SamePositions(fs, gs) {
      forall i | 0 <= i < 8 ensures Equiv(fs[i].value, gs[i].value, true) {
      }
    }
  }

  lemma CanonicalFieldsEquiv(c: Content, d: Content)
    ensures Equiv(Obj(CanonicalFields(c)), Obj(CanonicalFields(d)), true) <==> SameContent(c, d)
  {
    NamesDistinct(c);
    EightFieldsEquiv(CanonicalFields(c), CanonicalFields(d));
    PositionsAreContent(c, d);
  }

  lemma PositionsAreContent(c: Content, d: Content)
    ensures SamePositions(CanonicalFields(c), CanonicalFields(d)) <==> SameContent(c, d)
  {
  }

  lemma NamesDistinct(c: Content)
    ensures forall i, j :: 0 <= i < j < 8 ==> CanonicalFields(c)[i].name != CanonicalFields(c)[j].name
  {
    var fs := CanonicalFields(c);
    assert fs[0].name[0] == 'e' && fs[1].name[..2] == "se" && fs[2].name[..2] == "st" && fs[3].name[..2] == "sc";
    assert fs[4].name[..2] == "ti" && fs[5].name[..2] == "to" && fs[6].name[0] == 'c' && fs[7].name[0] == 'a';
  }

  /** The canonical text of two objects of distinct keys is the same exactly when
      they are equal up to key order. */
  lemma ObjectTextExact(fs: seq<Field>, gs: seq<Field>, text: Json -> string)
    requires TextDetermines(text) && WellFormed(Obj(fs)) && WellFormed(Obj(gs))
    ensures text(Canon(Obj(fs), true, text)) == text(Canon(Obj(gs), true, text)) <==> Equiv(Obj(fs), Obj(gs), true)
  {
    CanonSorted(Obj(fs), true, text);
    CanonSorted(Obj(gs), true, text);
    CanonDecides(Obj(fs), Obj(gs), true, text);
  }

  lemma CanonicalFieldsWellFormed(c: Content)
    requires ContentWellFormed(c)
    ensures WellFormed(Obj(CanonicalFields(c)))
  {
    NamesDistinct(c);
  }

  /** The payload determines the content, and ignores only the order of keys. */
  lemma PayloadExact(c: Content, d: Content, p: Primitives)
    requires IdealPrimitives(p) && ContentWellFormed(c) && ContentWellFormed(d)
    ensures Payload(c, p) == Payload(d, p) <==> SameContent(c, d)
  {
    CanonicalFieldsWellFormed(c);
    CanonicalFieldsWellFormed(d);
    ObjectTextExact(CanonicalFields(c), CanonicalFields(d), p.text);
    CanonicalFieldsEquiv(c, d);
  }

  /** Main result: put other content in a built manifest, under the same environment
      and no earlier than it was built: it verifies exactly when the content is the
      same up to the order of object keys. In particular a just-built manifest
      verifies, signed or unsigned, and any real change to a covered field fails. */
  lemma ManifestVerifiesExactly(c: Content, d: Content, env: Env, t: int, t': int, p: Primitives)
    requires IdealPrimitives(p) && Readable(env) && ContentWellFormed(c) && ContentWellFormed(d)
    requires t <= t' && Build(c, env, t, p).Ok?
    ensures VerifyManifest(Build(c, env, t, p).value.(content := d), env, t', p) <==> SameContent(c, d)
  {
    PayloadExact(c, d, p);
    if SameContent(c, d) && env.current.Some? {
      FreshSignatureVerifies(Payload(c, p), env, t, t', p.mac);
    }
  }

  lemma SameContentReflexive(c: Content, p: Primitives)
    requires IdealPrimitives(p) && ContentWellFormed(c)
    ensures SameContent(c, c)
  {
    PayloadExact(c, c, p);
  }

  lemma BuiltManifestVerifies(c: Content, env: Env, t: int, t': int, p: Primitives)
    requires IdealPrimitives(p) && Readable(env) && ContentWellFormed(c)
    requires t <= t' && Build(c, env, t, p).Ok?
    ensures VerifyManifest(Build(c, env, t, p).value, env, t', p)
    ensures Build(c, env, t, p).value.status == if env.current.None? then UNSIGNED else ALGORITHM
  {
    SameContentReflexive(c, p);
    ManifestVerifiesExactly(c, c, env, t, t', p);
  }

  /** Main result: the signature of a signed manifest vouches for its own content
      alone, in any environment and at any time, whatever digest is written. */
  lemma SignatureBindsContent(c: Content, d: Content, env: Env, t: int, other: Env, t': int, digest: Option<string>,
                              p: Primitives)
    requires IdealPrimitives(p) && Readable(other) && ContentWellFormed(c) && ContentWellFormed(d)
    requires Build(c, env, t, p).Ok? && env.current.Some? && !SameContent(c, d)
    ensures !VerifyManifest(Build(c, env, t, p).value.(content := d, digest := digest), other, t', p)
  {
    PayloadExact(c, d, p);
    VerifyExact(Payload(d, p), Build(c, env, t, p).value.signature.value, other, t', p.mac);
  }

  /** Main result: an unsigned manifest vouches for nothing but its digest, and must carry
      no signature; so a signed one cannot be passed off as unsigned. */
  lemma UnsignedExact(m: Manifest, env: Env, now: int, p: Primitives)
    requires m.status == "unsigned"
    ensures VerifyManifest(m, env, now, p) <==>
            m.digest == Some(Digest(m.content, p)) && (m.signature.None? || m.signature == Some(""))
  {
  }

  lemma SignedStaysSigned(c: Content, env: Env, t: int, other: Env, t': int, p: Primitives)
    requires IdealPrimitives(p) && Build(c, env, t, p).Ok? && env.current.Some?
    ensures !VerifyManifest(Build(c, env, t, p).value.(status := "unsigned"), other, t', p)
  {
    SignExact(Payload(c, p), env, t, p.mac);
  }

  /** A manifest is built exactly when the configuration is in order, from its content. */
  lemma BuildExact(c: Content, env: Env, now: int, p: Primitives)
    requires IdealPrimitives(p)
    ensures Build(c, env, now, p).Ok? <==> InOrder(env, now)
    ensures Build(c, env, now, p).Ok? ==>
              var m := Build(c, env, now, p).value;
              && m.content == c && m.digest == Some(Digest(c, p))
              && m.signature == (if env.current.Some? then Some(p.mac(env.current.value, Payload(c, p))) else None)
  {
    SignExact(Payload(c, p), env, now, p.mac);
  }
}
