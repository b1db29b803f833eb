/**
 * Reading a metadata document from R2: `readJsonObject` of
 * workers/shared/edge-publish.js. The stream arrives in arbitrary chunks and
 * may fail at any read; JSON parsing is a library function.
 */
module MetadataReader {
  import opened Common
  import opened Utf8
  import opened EdgePublish
  import opened PublishMeta
  import opened JsonText

  /** What `object.body` delivers: chunks, and possibly a failure after them. */
  datatype Stream = Stream(chunks: seq<seq<Byte>>, fails: bool)

  datatype R2Object = R2Object(marker: Visibility, size: int, body: Option<Stream>)

  function Flatten(chunks: seq<seq<Byte>>): seq<Byte> {
    if chunks == [] then [] else Flatten(chunks[..|chunks| - 1]) + chunks[|chunks| - 1]
  }

  lemma {:induction false} FlattenPrefix(chunks: seq<seq<Byte>>, k: nat)
    requires k <= |chunks|
    ensures exists rest :: Flatten(chunks) == Flatten(chunks[..k]) + rest
  {
    if k < |chunks| {
      var front := chunks[..|chunks| - 1];
      FlattenPrefix(front, k);
      assert front[..k] == chunks[..k];
      var rest :| Flatten(front) == Flatten(chunks[..k]) + rest;
      assert Flatten(chunks) == Flatten(chunks[..k]) + (rest + chunks[|chunks| - 1]);
    } else {
      assert chunks[..k] == chunks;
      assert Flatten(chunks) == Flatten(chunks[..k]) + [];
    }
  }

  // ----- when a stream can no longer become a document -----

  /** Some continuation makes the bytes valid UTF-8. */
  ghost predicate Completable(bytes: seq<Byte>) {
    exists rest: seq<Byte> :: Decode(bytes + rest).Some?
  }

  lemma FinishCodePoint(d: Decoder) returns (rest: seq<Byte>)
    requires Valid(d)
    ensures Run(d, rest).Some? && Run(d, rest).value.0.needed == 0
    decreases d.needed - d.seen
  {
    if d.needed == 0 {
      rest := [];
    } else {
      RunStart(d, d.lower);
      if d.seen + 1 == d.needed {
        FeedLast(d, d.lower);
        rest := [d.lower];
      } else {
        FeedMore(d, d.lower);
        var next := Feed(d, d.lower).value.0;
        var tail := FinishCodePoint(next);
        RunConcat(d, [d.lower], tail);
        rest := [d.lower] + tail;
      }
    }
  }

  /** The decoder reports an error at the first byte that cannot be continued. */
  lemma ErrorsAreImmediate(bytes: seq<Byte>)
    ensures Run(START, bytes).Some? <==> Completable(bytes)
  {
    if Run(START, bytes).Some? {
      var cs := RunSound(bytes);
      var rest := FinishCodePoint(Run(START, bytes).value.0);
      RunConcat(START, bytes, rest);
      assert Decode(bytes + rest).Some?;
    }
    if Completable(bytes) {
      var rest: seq<Byte> :| Decode(bytes + rest).Some?;
      RunConcat(START, bytes, rest);
    }
  }

  /** The reader gives up before the end: too many bytes, or no UTF-8 any more. */
  ghost predicate GivesUp(size: nat, bytes: seq<Byte>) {
    |bytes| > MAX_META || |bytes| > size || !Completable(bytes)
  }

  /**
   * The read loop. However the bytes are cut into chunks, the text is that of
   * decoding them all at once, provided their number is the declared size;
   * the reader is cancelled exactly when it did not reach the end.
   */
  method ReadText(size: nat, stream: Stream) returns (text: Option<seq<Scalar>>, cancelled: bool)
    ensures var bytes := Flatten(stream.chunks);
      && cancelled == (stream.fails || GivesUp(size, bytes))
      && text == if !stream.fails && |bytes| == size && size <= MAX_META then Decode(bytes) else None
  {
    var bytes, decoder := 0, START;
    var produced: seq<Scalar> := [];
    ErrorsAreImmediate(Flatten(stream.chunks));
    var i := 0;
    while i < |stream.chunks|
      invariant 0 <= i <= |stream.chunks|
      invariant bytes == |Flatten(stream.chunks[..i])| && bytes <= size && bytes <= MAX_META
      invariant Run(START, Flatten(stream.chunks[..i])) == Some((decoder, produced))
    {
      var chunk := stream.chunks[i];
      ghost var before := Flatten(stream.chunks[..i]);
      assert stream.chunks[..i + 1][..i] == stream.chunks[..i];
      assert Flatten(stream.chunks[..i + 1]) == before + chunk;
      RunConcat(START, before, chunk);
      FlattenPrefix(stream.chunks, i + 1);
      ghost var rest :| Flatten(stream.chunks) == before + chunk + rest;
      bytes := bytes + |chunk|;
      if bytes > MAX_META || bytes > size {
        return None, true;
      }
      match Run(decoder, chunk)
      case None =>
        RunConcat(START, before + chunk, rest);
        return None, true;
      case Some((next, more)) =>
        decoder, produced := next, produced + more;
      i := i + 1;
    }
    assert stream.chunks[..i] == stream.chunks;
    if stream.fails {
      return None, true;
    }
    cancelled := false;
    text := if decoder.needed == 0 && bytes == size then Some(produced) else None;
  }

  // ----- readJsonObject -----

  /** The `package` member of a parsed document. */
  datatype PackageField =
    | NoField
    | NotARecord
    | Facts(visibility: Visibility, vcs: Option<Units>, repoUrl: Option<Units>, description: Option<Units>)

  /** A parsed document, as far as the readers look at it. */
  datatype Document = NotRecord | Record(visibility: Visibility, package: PackageField)

  function PackageOf(pkg: Option<Json>): PackageField {
    if pkg.None? then NoField
    else if !pkg.value.Object? then NotARecord
    else Facts(VisibilityOf(pkg.value), TextOf(Lookup(pkg.value, "vcs")), TextOf(Lookup(pkg.value, "repo_url")),
               TextOf(Lookup(pkg.value, "description")))
  }

  function DocumentOf(v: Json): Document {
    if v.Object? then Record(VisibilityOf(v), PackageOf(Lookup(v, "package"))) else NotRecord
  }

  /** `Absent` is a null answer; `NonPublic` is the thrown NonPublicObjectError. */
  datatype Read<+T> = Absent | NonPublic | Found(value: T)

  /** The gate on what a document says of itself. */
  function Admit(v: Json): Read<Json> {
    match DocumentOf(v)
    case NotRecord => NonPublic
    case Record(visibility, p) =>
      if !PermitsPublic(visibility) || p.NotARecord? || (p.Facts? && !PermitsPublic(p.visibility)) then NonPublic
      else Found(v)
  }

  /** `JSON.parse` */
  type Parse = seq<Scalar> -> Option<Json>

  function Interpret(parse: Parse, text: Option<seq<Scalar>>): Read<Json> {
    if text.None? || parse(text.value).None? then Absent else Admit(parse(text.value).value)
  }

  /** What a reader gets from an object, as a function of its bytes alone. */
  function ObjectText(entry: R2Object): Option<seq<Scalar>> {
    if entry.body.None? || entry.body.value.fails || entry.size < 0 || entry.size > MAX_META
       || |Flatten(entry.body.value.chunks)| != entry.size
    then None
    else Decode(Flatten(entry.body.value.chunks))
  }

  function ReadResult(parse: Parse, entry: Option<R2Object>): Read<Json> {
    if entry.None? then Absent
    else if !PermitsPublic(entry.value.marker) then NonPublic
    else Interpret(parse, ObjectText(entry.value))
  }

  /** The body is cancelled: the object is refused, or its stream was not read to the end. */
  ghost predicate Cancels(entry: R2Object) {
    && entry.body.Some?
    && (!PermitsPublic(entry.marker) || entry.size < 0 || entry.size > MAX_META || entry.body.value.fails
        || GivesUp(entry.size, Flatten(entry.body.value.chunks)))
  }

  method ReadJsonObject(parse: Parse, entry: Option<R2Object>) returns (result: Read<Json>, cancelled: bool)
    ensures result == ReadResult(parse, entry)
    ensures cancelled <==> entry.Some? && Cancels(entry.value)
  {
    if entry.None? { return Absent, false; }
    if !PermitsPublic(entry.value.marker) { return NonPublic, entry.value.body.Some?; }
    var size := entry.value.size;
    if size > MAX_SAFE_INTEGER || size < 0 || size > MAX_META { return Absent, entry.value.body.Some?; }
    if entry.value.body.None? { return Absent, false; }
    var text: Option<seq<Scalar>>;
    text, cancelled := ReadText(size, entry.value.body.value);
    result := Interpret(parse, text);
  }

  // ----- what is found and what is refused -----

  /** The whole text of an object: all the bytes it declares, at most 1 MiB, as UTF-8. */
  predicate Arrives(entry: R2Object, text: seq<Scalar>) {
    && entry.body.Some? && !entry.body.value.fails && entry.size <= 1024 * 1024
    && |Flatten(entry.body.value.chunks)| == entry.size && Decode(Flatten(entry.body.value.chunks)) == Some(text)
  }

  predicate Unrestricted(v: Json) {
    v.Object? && (Lookup(v, "visibility").Some? ==> Lookup(v, "visibility").value == String(Utf16("public")))
  }

  /** A document that no word of its own keeps from the public. */
  predicate OpenlyPublic(v: Json) {
    Unrestricted(v) && (Lookup(v, "package").Some? ==> Unrestricted(Lookup(v, "package").value))
  }

  /**
   * A reader finds exactly the parsed text of an object whose marker does not
   * restrict it and which says nothing but "public" of itself and its package.
   * It throws exactly when the marker, or a text that parses, says otherwise.
   */
  lemma ReadExactly(parse: Parse, entry: Option<R2Object>, v: Json)
    ensures ReadResult(parse, entry) == Found(v) <==>
            && entry.Some? && !entry.value.marker.Restricted? && OpenlyPublic(v)
            && exists text :: Arrives(entry.value, text) && parse(text) == Some(v)
    ensures ReadResult(parse, entry) == NonPublic <==>
            && entry.Some?
            && (entry.value.marker.Restricted?
                || exists text :: Arrives(entry.value, text) && parse(text).Some? && !OpenlyPublic(parse(text).value))
  {
    if entry.Some? {
      var text := ObjectText(entry.value);
      forall t ensures text == Some(t) <==> Arrives(entry.value, t) { TextArrives(entry.value, t); }
      if text.Some? && parse(text.value).Some? { AdmitExactly(parse(text.value).value); }
    }
  }

  lemma TextArrives(entry: R2Object, text: seq<Scalar>)
    ensures ObjectText(entry) == Some(text) <==> Arrives(entry, text)
  {
  }

  lemma AdmitExactly(v: Json)
    ensures Admit(v) == if OpenlyPublic(v) then Found(v) else NonPublic
  {
  }

  /** A stored text of at most 1 MiB is read back through any chunking, less one
      leading byte order mark; a longer one is not read at all. */
  lemma StoredTextIsRead(cs: seq<Scalar>, entry: R2Object)
    requires entry.body.Some? && !entry.body.value.fails
    requires Flatten(entry.body.value.chunks) == Encode(cs) && entry.size == |Encode(cs)|
    ensures ObjectText(entry) == if |Encode(cs)| <= MAX_META then Some(StripBom(cs)) else None
    ensures ObjectText(entry) == Some(cs) <==> |Encode(cs)| <= MAX_META && !(cs != [] && cs[0] == BOM)
  {
    DecodeExactly(Encode(cs), StripBom(cs));
  }
}
