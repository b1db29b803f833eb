/**
 * What a signature of the public intake worker binds.
 *
 * The worker signs the lines `v1`, timestamp, host, path, request identifier
 * and body digest. HMAC itself is not modelled: a signature covers the bytes
 * of this text. The digest is any total function of bytes; where a digest is
 * read back as the body it names, the two bodies at hand are assumed not to
 * collide.
 */
module IntakeSigning {
  import opened Utf8
  import opened CanonicalJson
  import opened JsonText
  import Text

  type Digest = seq<Byte> -> Units

  const NEWLINE: CodeUnit := 10

  /** `requestId` */
  const REQUEST_ID: Units := [114, 101, 113, 117, 101, 115, 116, 73, 100]

  /** A route of the fixed route table: host names and paths are single lines. */
  datatype Route = Route(host: Units, apiPath: Units)

  /** One line of printable ASCII text. */
  predicate Line(s: Units) { forall u | u in s :: 0x20 <= u < 0x7F }

  /** A normalized payload is an object; `requestId` is one of its properties. */
  datatype Forward = Forward(route: Route, timestamp: Units, requestId: Units, payload: Json)

  predicate IsHexOrDash(u: CodeUnit) { 48 <= u < 58 || 97 <= u < 103 || u == 45 }

  /** The shape `normalizeRequestId` leaves behind: a lower-case UUID. */
  predicate IsRequestId(id: Units) { |id| == 36 && forall u | u in id :: IsHexOrDash(u) }

  /** A printed clock reading: digits, possibly with a sign. */
  predicate IsTimestamp(t: Units) { Numeral(t) }

  predicate IsHexDigest(d: Units) { |d| == 64 && forall u | u in d :: IsHexOrDash(u) }

  predicate Ready(f: Forward) {
    && IsJson(f.payload) && f.payload.Object?
    && Member(REQUEST_ID, String(f.requestId)) in f.payload.members
    && Line(f.route.host) && Line(f.route.apiPath)
    && IsTimestamp(f.timestamp) && IsRequestId(f.requestId)
  }

  function Lines(hash: Digest, f: Forward): seq<Units> {
    [[118, 49], f.timestamp, f.route.host, f.route.apiPath, f.requestId, hash(Utf8Bytes(Canon(f.payload)))]
  }

  /** The text the worker signs. */
  function Preimage(hash: Digest, f: Forward): Units { Text.Join(Lines(hash, f), [NEWLINE]) }

  // ----- canonical texts have no lone surrogate -----

  lemma {:induction false} FieldsWellFormed(keys: seq<Units>, texts: map<Units, Units>)
    requires forall k | k in texts :: WellFormed(texts[k])
    ensures forall p | p in Fields(keys, texts) :: WellFormed(p)
  {
    if keys != [] {
      FieldsWellFormed(keys[1..], texts);
      QuoteWellFormed(keys[0]);
      PlainWellFormed([COLON]);
      WellFormedConcat(Quote(keys[0]), [COLON]);
      var text := if keys[0] in texts then texts[keys[0]] else [];
      WellFormedConcat(Quote(keys[0]) + [COLON], text);
      assert Fields(keys, texts) == [Quote(keys[0]) + [COLON] + text] + Fields(keys[1..], texts);
    }
  }

  lemma {:induction false} ItemsWellFormed(items: seq<Json>)
    requires forall i | 0 <= i < |items| :: IsJson(items[i])
    ensures forall p | p in CanonItems(items) :: WellFormed(p)
    decreases items, 0
  {
    if items != [] {
      CanonWellFormed(items[0]);
      ItemsWellFormed(items[1..]);
    }
  }

  lemma {:induction false} TextsWellFormed(members: seq<Member>)
    requires forall i | 0 <= i < |members| :: IsJson(members[i].value)
    ensures forall k | k in Texts(members) :: WellFormed(Texts(members)[k])
    decreases members, 0
  {
    if members != [] {
      CanonWellFormed(members[0].value);
      TextsWellFormed(members[1..]);
    }
  }

  lemma {:induction false} CanonWellFormed(v: Json)
    requires IsJson(v)
    ensures WellFormed(Canon(v))
    decreases v, 0
  {
    match v
    case String(s) => QuoteWellFormed(s);
    case List(items) =>
      ItemsWellFormed(items);
      JoinWellFormed(CanonItems(items), COMMA);
      BracketsWellFormed(91, Text.Join(CanonItems(items), [COMMA]), 93);
    case Object(members) =>
      TextsWellFormed(members);
      var fields := Fields(Sort(KeysInOrder(members)), Texts(members));
      FieldsWellFormed(Sort(KeysInOrder(members)), Texts(members));
      JoinWellFormed(fields, COMMA);
      BracketsWellFormed(123, Text.Join(fields, [COMMA]), 125);
    case _ => PlainWellFormed(Canon(v));
  }

  // ----- what the signature determines -----

  /** Two values have the same canonical bytes exactly when they are the same
      up to the order of properties. */
  lemma CanonicalBytes(v: Json, w: Json)
    requires IsJson(v) && IsJson(w)
    ensures Utf8Bytes(Canon(v)) == Utf8Bytes(Canon(w)) <==> Same(v, w)
  {
    CanonicalExactly(v, w);
    if Utf8Bytes(Canon(v)) == Utf8Bytes(Canon(w)) {
      EncodeInjective(ToScalars(Canon(v)), ToScalars(Canon(w)));
      CanonWellFormed(v);
      CanonWellFormed(w);
      ScalarsRoundTrip(Canon(v));
      ScalarsRoundTrip(Canon(w));
    }
  }

  lemma LinesAreLines(hash: Digest, f: Forward)
    requires Ready(f) && IsHexDigest(hash(Utf8Bytes(Canon(f.payload))))
    ensures forall line | line in Lines(hash, f) :: Line(line)
  {
    var d := hash(Utf8Bytes(Canon(f.payload)));
    assert Line([118, 49]) && Line(f.timestamp) && Line(f.requestId) && Line(d);
  }

  lemma LinesJoined(lines: seq<Units>)
    requires lines != [] && forall line | line in lines :: Line(line)
    ensures Text.Split(Text.Join(lines, [NEWLINE]), NEWLINE) == lines
    ensures WellFormed(Text.Join(lines, [NEWLINE]))
  {
    Text.SplitJoin(lines, NEWLINE);
    forall line | line in lines ensures WellFormed(line) { PlainWellFormed(line); }
    JoinWellFormed(lines, NEWLINE);
  }

  lemma SameBytesSameLines(a: seq<Units>, b: seq<Units>)
    requires a != [] && forall line | line in a :: Line(line)
    requires b != [] && forall line | line in b :: Line(line)
    requires Utf8Bytes(Text.Join(a, [NEWLINE])) == Utf8Bytes(Text.Join(b, [NEWLINE]))
    ensures a == b
  {
    var x, y := Text.Join(a, [NEWLINE]), Text.Join(b, [NEWLINE]);
    LinesJoined(a);
    LinesJoined(b);
    EncodeInjective(ToScalars(x), ToScalars(y));
    ScalarsRoundTrip(x);
    ScalarsRoundTrip(y);
  }

  /** The signed text is six lines, and read back they are these, in this order. */
  lemma PreimageReads(hash: Digest, f: Forward)
    requires Ready(f) && IsHexDigest(hash(Utf8Bytes(Canon(f.payload))))
    ensures Text.Split(Preimage(hash, f), NEWLINE) ==
            [Utf16("v1"), f.timestamp, f.route.host, f.route.apiPath, f.requestId, hash(Utf8Bytes(Canon(f.payload)))]
  {
    LinesAreLines(hash, f);
    LinesJoined(Lines(hash, f));
    Utf16Ascii("v1");
    assert Utf16("v1") == [118, 49];
  }

  /**
   * The signed bytes determine every header and the body: two requests with
   * the same signed bytes carry the same timestamp, route, request identifier
   * and payload, the payload up to the order of properties. Conversely that
   * order does not change what is signed.
   */
  lemma SignatureBinds(hash: Digest, f: Forward, g: Forward)
    requires Ready(f) && Ready(g)
    requires IsHexDigest(hash(Utf8Bytes(Canon(f.payload)))) && IsHexDigest(hash(Utf8Bytes(Canon(g.payload))))
    requires hash(Utf8Bytes(Canon(f.payload))) == hash(Utf8Bytes(Canon(g.payload)))
             ==> Utf8Bytes(Canon(f.payload)) == Utf8Bytes(Canon(g.payload))
    ensures Utf8Bytes(Preimage(hash, f)) == Utf8Bytes(Preimage(hash, g)) <==>
            && f.timestamp == g.timestamp && f.route == g.route && f.requestId == g.requestId
            && Same(f.payload, g.payload)
  {
    CanonicalBytes(f.payload, g.payload);
    if Utf8Bytes(Preimage(hash, f)) == Utf8Bytes(Preimage(hash, g)) {
      LinesAreLines(hash, f);
      LinesAreLines(hash, g);
      SameBytesSameLines(Lines(hash, f), Lines(hash, g));
      var a, b := Lines(hash, f), Lines(hash, g);
      assert a[1] == b[1] && a[2] == b[2] && a[4] == b[4] && a[5] == b[5];
      assert a[3] == b[3];
    }
  }
}
