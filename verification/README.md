# Edge registry: a verified model

A Dafny model of the parts of the edge registry where an answer depends on more
than one function: publishing under concurrency, the text formats that name
packages, the chain from a capability to a provider credential, the isolation
auditor, and the orchestration of fallbacks and redirects. `dafny verify
dfyconfig.toml` verifies everything.

## What is modelled

**Publishing over R2** (`EdgePublish`, `PublishMeta`, `PublishAcceptance`,
`PublishSafety`, `PublishReadable`, `MetadataReader`, `PackageListing`,
`PublishedDocuments`, `PublishedListing`, `PublishExamples`). Any number of
publishers interleave two steps, "store the artifact under its digest" and "create
the version document if it is absent", and may stop at any point. The handler is proved to be one run of
that machine. Over all runs: one winner per coordinate, immutable documents,
every document's artifact present and as described, no trace of a refused
publish. It is proved which publishes are accepted, what the first reason of every
refusal is, and what is written. Meta parts and version documents are JSON values,
down to the bytes that are stored. Readers stream documents in any chunks and list
versions page by page while publishes go on; the listing is proved exact against the bucket's timeline,
and it is proved which published documents are found again.

**Names, keys and routes** (`NativeCoordinate`, `CoordinateGrammar`, `Routes`,
`RouteTable`, `CdnKeys`, `Utf8`). The `z1_` coordinate codec down to base64 symbols and the WHATWG UTF-8
decoder, the registry grammars, the router, and the keys the CDN reads.

**Text formats** (`JsonText`, `JsonReading`, `CanonicalJson`, `IntakeSigning`,
`Packagist`, `PackagistCatalog`, `PackagistBinding`, `PackagistExamples`,
`CranDescription`, `NativeUrls`, `Grammars`). A reader undoes the JSON printer;
canonical JSON determines a value up to the order of properties, and a signature
binds the whole request; Composer expansion undoes minification; the
`DESCRIPTION` parser undoes a printer for every folding, also between fields it
ignores; Go and Maven URLs determine what they name.

**Capabilities and credentials** (`EdgeCapability`, `EdgeAcceptance`,
`EdgeAuthority`, `EdgePlanning`, `PathConfinement`, `CredentialBroker`,
`BrokerAcceptance`). Exactly which tokens, plans and credentials are accepted, time
arithmetic across two modules and two clock readings, independence of the order of
keys and grants, and confinement of request paths.

**The isolation auditor** (`IsolationAudit`, `IsolationSpec`, `IsolationProbes`,
`IsolationOrder`, `IsolationVerdict`). Four methods that push findings are proved
equal to finding lists; those are empty exactly when a declarative requirement
holds; the requirement is shown to separate the areas; the verdict ignores the
order of the evidence, and fails exactly when something observed contradicts the
contract.

**Orchestration** (`RegistryHandler`, `EdgeService`, `Redirects`). The registry
handler as a sequence of effects on arbitrary sources, the handler itself over a
live bucket that it publishes to and reads from, and the redirect loops against an
arbitrary network. What the edge published it serves, end to end.

`Common`, `Checks`, `Text`, `Multisets`, `Ordering`, `Values`, `Urls` and
`PercentDecoding` hold what several of these share.

## Assumptions

- A hash is any total function from bytes to 64 hexadecimal digits. Where a
  digest is read back as what it digests, the absence of collisions is assumed
  for the values at hand only: `PublishSafety.NoCollision` (stored and published
  artifacts of one digest have one length), `IsolationSpec.NoCollision` (two
  lists of areas), and a premise of `IntakeSigning.SignatureBinds` (two bodies).
- A conditional `put` is atomic, and every other `put` replaces one object.
- `PackageListing.Honest`: each page holds the next keys in key order, as the
  bucket is when the page is read. Without it the loop still ends.
- `JSON.parse` undoes `JSON.stringify`, up to the order of properties, for the
  stored documents at hand (`PublishedDocuments.Undoes`; the reader of
  `JsonReading` does, for every value), and a meta part that it
  has parsed is a JSON value (`PublishedDocuments.ParsedForm`).
- R2 delivers a stored object whole, in any chunks (`EdgeService.Faithful`).
- URLs, forms, JSON documents and JWT segments are parsed values. The one fact
  used about the URL parser is `Urls.ParsesPlainly`: it returns the host and path
  of a plain `https:` URL as they are. The path of a GitHub URL is absolute.
- Lower-casing of organisation names and the collation behind `localeCompare`
  belong to the auditor's environment; the collation is an order that tells the
  three roles apart.
- A JavaScript number is represented by the text it prints, with its value when
  that is a safe integer.

## What does not hold in general, and exactly when it does

- A publish that is answered 201 can store a document that no reader ever finds:
  the limit of 1 MiB is checked on the meta part as sent, and the document is
  printed anew. It is found exactly when its own UTF-8 form is at most 1 MiB
  (`PublishedDocuments.PublishedIsRead`, `EdgeService.PublishedHereIsServed`); a
  publish past that is `PublishExamples.OversizedPublish`. As the newest version
  it also hides the listing of its package (`PublishedListing.ListingOfPublished`).
- The CDN does not read the document of a version that ends in a dot, although
  the registry routes and accepts the publish: the key contains `..`
  (`PublishReadable.PublishedDocumentIsReadable`, `PublishReadable.TrailingDotExample`).
- The artifact of a publish whose format is `constructor` or `__proto__`, in any
  case, gets a key nobody can read, because the extension table inherits those
  names (`PublishReadable.PublishedArtifactIsReadable`, `PublishExamples.InheritedPublish`).
- A stored text that starts with a byte order mark is read without it
  (`MetadataReader.StoredTextIsRead`); no document that a publish builds does.
- The coordinate codec loses lone surrogates and a leading byte order mark and
  refuses its own output beyond 1536 bytes; decoding has aliases whose spare bits
  are not zero (`NativeCoordinate.CodecRoundTrip`, `CoordinateGrammar.CanonicalSegment`).
- A listed Packagist version can not be downloaded when an unbound entry with the
  same version comes first, and it may even be the latest one
  (`PackagistCatalog.DownloadExactly`, `PackagistExamples.ShadowedExample`).
- The registry handler's "invalid state" is reachable: the router accepts runs of
  slug characters that the path parser does not (`RegistryHandler.InvalidStateExactly`,
  `RegistryHandler.InvalidStateExample`).
- The `DESCRIPTION` parser does not skip a field it ignores when one of its
  indented lines, read on its own, starts an allowed field; otherwise it does
  (`CranDescription.IgnoredFieldLeaks`, `CranDescription.ParseSkipsOthers`,
  `CranDescription.LeakedTitle`).

## Model

| member | source | states |
|---|---|---|
| `EdgePublish.CountBody` | workers/shared/edge-publish.js:436-448 | the byte counter stops at the first chunk that overruns the declared length, and otherwise has counted every byte |
| `EdgePublish.Bucket.Put` | workers/shared/edge-publish.js:566-574 | an unconditional put replaces one object and nothing else |
| `EdgePublish.Bucket.PutIfAbsent` | workers/shared/edge-publish.js:576-583 | a conditional put stores its object exactly when the key is free, and says which |
| `EdgePublish.HandleEdgePublish` | workers/shared/edge-publish.js:386-611 | answer, error code and bucket of an undisturbed publish are two steps of the publish state machine |
| `EdgePublish.AloneIsARun` | workers/shared/edge-publish.js:386-611 | the handler is one run of the step machine; on its own a publish that gets to write answers 409 exactly when the version exists |
| `EdgePublish.PlanSource` | workers/shared/edge-publish.js:459-561 | a publish that gets as far as writing has a validated meta, a registry version key, an artifact key made of the hash of its own bytes, and the document built from both |
| `EdgePublish.PlanWrites` | workers/shared/edge-publish.js:190-233 | the document that is written names the route's coordinate, and the digest and size of the bytes that are written |
| `PublishAcceptance.VerdictExactly` | workers/shared/edge-publish.js:386-544 | a publish is refused with the status and code of the first of twenty conditions that fails, in their order, and accepted when none does |
| `PublishAcceptance.AcceptedExactly` | workers/shared/edge-publish.js:386-544 | a publish is accepted exactly when it is enabled and authorized, its length is canonical, within 33 MiB and what was received, its form is one meta text of at most 1 MiB and one file, and the meta part names the route, is open to the public in both records, and gives the digest and size of the file, a tag and a known format |
| `PublishAcceptance.WrittenExactly` | workers/shared/edge-publish.js:190-226 | an accepted publish writes its file under its digest and extension, and a document that says coordinate, digest, size, format, tag, commit, mirrors, signatures and package facts as the request gave them |
| `PublishAcceptance.AnswerExactly` | workers/shared/edge-publish.js:562-611 | a refused publish leaves the bucket alone and answers its reason; an accepted one stores its file, and its document with a 201 unless the version exists, which is a 409 |
| `PublishSafety.AtMostOnePublishWins` | workers/shared/edge-publish.js:562-611 | in every interleaving, crashes included, at most one publish of a coordinate answers 201, and the store then holds that publish's document |
| `PublishSafety.AnswersAreHonest` | workers/shared/edge-publish.js:562-611 | 201 and 409 are exactly the answers of publishes that reach the claim; a refused publish answers its refusal; after a 409 the version exists |
| `PublishSafety.AnswersAreFinal` | workers/shared/edge-publish.js:386-611 | a publish that has been answered, or died, takes no further step |
| `PublishSafety.DocumentsAreImmutable` | workers/shared/edge-publish.js:576-583 | an established version document never changes, whatever publishers do next |
| `PublishSafety.StoreGrows` | workers/shared/edge-publish.js:562-585 | no object is ever removed |
| `PublishSafety.NewDocumentsAreClaimed` | workers/shared/edge-publish.js:576-583 | each document a run adds is the document some publisher planned, under that publisher's key |
| `PublishSafety.RefusedPublishLeavesNoTrace` | workers/shared/edge-publish.js:386-561 | deleting all events of a refused publish from a run changes neither the store nor any other publisher |
| `PublishSafety.OtherStatusesChangeNothing` | workers/shared/edge-publish.js:386-611 | a publish answered with anything but 201 or 409 leaves the store as if it had never been |
| `PublishSafety.EveryDocumentHasItsArtifact` | workers/shared/edge-publish.js:544-583 | in every reachable state each version document names an artifact already stored with the document's digest and size, and neither is marked non-public |
| `PublishReadable.PublishedArtifactIsReadable` | workers/shared/edge-publish.js:67-78 | the CDN reads the key of a published artifact exactly when the declared format is an entry of the format table and not an inherited property |
| `PublishReadable.PublishedDocumentIsReadable` | workers/shared/edge-publish.js:79-83 | for every route the registry parses, the CDN reads the key of the published document exactly when the version does not end in a dot |
| `PublishReadable.DefaultDownloadUrl` | workers/shared/edge-publish.js:190-233 | with the default CDN base the download URL is the CDN path of the artifact key |
| `PublishReadable.NativeCoordinatesAreRefused` | workers/shared/edge-publish.js:79-83 | an encoded native coordinate is never published: it is no registry key |
| `PublishReadable.PublishPathRoutes` | workers/shared/github-fallback.js:298-333 | every slug coordinate and safe version has a publish path that the parser reads back and the router treats as a write |
| `PublishReadable.TrailingDotExample` | workers/cdn-proxy/src/index.js:356-364 | version `1.` has a registry key that the CDN refuses |
| `PublishExamples.InheritedPublish` | workers/shared/edge-publish.js:61-78 | a publish with format `constructor`, or any other such name in any case, is accepted and answered 201, and its artifact is stored under a key the CDN refuses |
| `PublishedDocuments.ContentGateAdmits` | workers/shared/edge-publish.js:372-376 | the readers' gate on `visibility` and `package.visibility` admits every document that a publish builds |
| `PublishedDocuments.DocumentReadsBack` | workers/shared/edge-publish.js:312-377 | a stored published document is found again exactly when its UTF-8 form is at most 1 MiB, and is then the value that was built, up to the order of properties |
| `PublishedDocuments.PublishedIsRead` | workers/shared/edge-publish.js:562-611 | over every run, a publish answered 201 is found by every later reader exactly when its document is at most 1 MiB, and reads as absent for ever otherwise |
| `JsonReading.ReadPrinted` | workers/shared/edge-publish.js:364-371 | a reader of JSON texts reads every printed value back as that value |
| `PublishedDocuments.ReaderUndoes` | workers/shared/edge-publish.js:364-371 | that reader is a parser as the statements about published documents need it |
| `PublishExamples.OversizedPublish` | workers/shared/edge-publish.js:502-583 | such a publish exists: signatures sent as `1e20` fit the limit on the meta part and outgrow it when printed; it is answered 201, a retry 409, and no reader finds it |
| `MetadataReader.ReadText` | workers/shared/edge-publish.js:312-377 | for every chunking the text is the one-shot decoding of the concatenated bytes when their number is the declared size and at most 1 MiB, and nothing otherwise; the reader is cancelled exactly when it did not reach the end |
| `MetadataReader.ErrorsAreImmediate` | workers/shared/edge-publish.js:340-363 | the decoder fails exactly on bytes that no continuation can complete, so giving up early loses no acceptable stream |
| `MetadataReader.ReadJsonObject` | workers/shared/edge-publish.js:312-377 | a missing object is absent, a non-public one throws, and any other is what its text means; the body is cancelled exactly when the object is refused or its stream was not read to the end |
| `MetadataReader.ReadExactly` | workers/shared/edge-publish.js:312-377 | an object is found exactly when its marker does not restrict it, its text arrives whole within 1 MiB and parses, and its `visibility` and that of its package are absent or `public`; it throws exactly when the marker or a text that parses says otherwise |
| `MetadataReader.StoredTextIsRead` | workers/shared/edge-publish.js:312-377 | a stored text of at most 1 MiB is read, in any chunking, less one leading byte order mark; a longer one is not read; it comes back unchanged exactly when it is short enough and starts with no byte order mark |
| `PackageListing.ListAll` | workers/shared/edge-publish.js:254-286 | the page loop ends within ten calls whatever the bucket answers, at the first page that does not go on |
| `PackageListing.GoesOnExactly` | workers/shared/edge-publish.js:254-286 | another page is asked for exactly after a truncated, public page that is not the tenth, with at most 10 000 objects so far and a cursor that no earlier page carried |
| `PackageListing.ListingIsComplete` | workers/shared/edge-publish.js:254-286 | read page by page while publishes run, the objects hold every key present before the first page and none absent at the last, in strict key order |
| `PackageListing.R2PackageMetadata` | workers/shared/edge-publish.js:248-310 | the listing is a function of the pages that were read and of the newest document, and nothing is read for a name that is no registry name |
| `PackageListing.ListingAnswers` | workers/shared/edge-publish.js:248-310 | a listing answers exactly when the names are registry names, the loop ends at an untruncated public page within 10 000 objects, one object is a document, and the newest document can be read |
| `PublishedListing.ListingOfPublished` | workers/shared/edge-publish.js:288-309 | over every run the listing gives the facts of the newest published document, and answers exactly when that document is at most 1 MiB |
| `PackageListing.SortSorts` | workers/shared/edge-publish.js:288-290 | sorting puts later uploads first and keeps key order among ties |
| `PackageListing.SortKeeps` | workers/shared/edge-publish.js:288-290 | sorting loses and adds no entry |
| `PackageListing.ListingIsExact` | workers/shared/edge-publish.js:248-310 | a listing that answers holds every version claimed before its first page and none unclaimed at its last, without duplicates, newest upload first, `latest` at its head, each version exactly the one in its key |
| `PackageListing.RunsKeepVersions` | workers/shared/edge-publish.js:576-583 | publishers put nothing but version documents under a package's prefix |
| `PackageListing.ListingShowsEveryEarlierPublish` | workers/shared/edge-publish.js:248-310 | a publish answered 201 before the first page of a listing is in that listing, whatever is published meanwhile |
| `Utf8.ScalarsRoundTrip` | workers/shared/native-registry-catalog.js:88-98 | a text survives conversion to scalar values exactly when it has no lone surrogate |
| `Utf8.DecodeExactly` | workers/shared/native-registry-catalog.js:100-113 | fatal decoding accepts exactly the RFC 3629 encodings and answers what was encoded, less one leading byte order mark |
| `Utf8.EncodeInjective` | workers/shared/native-registry-catalog.js:88-98 | RFC 3629 encodings are unambiguous |
| `Ordering.LessExactly` | workers/shared/edge-publish.js:254-286 | the order of keys is that of the first character in which they differ, a prefix first |
| `NativeCoordinate.EncodeNativeCoordinate` | workers/shared/native-registry-catalog.js:88-98 | the byte loop computes the segment of the UTF-8 form |
| `NativeCoordinate.SegmentShape` | workers/shared/native-registry-catalog.js:88-98 | a segment is `z1_` and four base64url symbols for every three bytes, unpadded |
| `NativeCoordinate.CodecRoundTrip` | workers/shared/native-registry-catalog.js:88-113 | decoding undoes encoding exactly for texts without lone surrogates, without a leading byte order mark, and of at most 1536 UTF-8 bytes |
| `CoordinateGrammar.AcceptedCoordinateRoundTrips` | workers/shared/native-registry-catalog.js:116-151 | every coordinate that a registry grammar accepts encodes to at most 1366 symbols, and decodes and validates back to itself |
| `CoordinateGrammar.CanonicalSegment` | workers/shared/native-registry-catalog.js:100-113 | a decodable segment is the encoder's own exactly when its spare bits are zero, its bytes do not start with a byte order mark, and its text is at most 1024 units |
| `Routes.CoordinateRoutes` | workers/shared/github-fallback.js:256-329 | under any organisation slug an encoded coordinate is one package segment: the parser reads it back and a GET or HEAD is a fallback read |
| `RouteTable.RouteExactly` | workers/shared/github-fallback.js:149-253 | a path is matched by a route exactly when, in its canonical form, it is one that the route spells; no path belongs to two routes |
| `RouteTable.CanonicalExactly` | workers/shared/github-fallback.js:218-239 | a path has a canonical form exactly when it has at most 2048 characters, no percent sign, backslash or NUL, and no two dots or slashes together; the form lacks one trailing slash |
| `RouteTable.ActionExactly` | workers/shared/github-fallback.js:256-291 | for every route and method: preflight, health, fallback read, origin read, origin write or denial |
| `RouteTable.MethodsExactly` | workers/shared/github-fallback.js:149-215 | reads everywhere but on four routes, PUT on two, POST on three |
| `Routes.VersionKeyInjective` | workers/shared/edge-publish.js:79-83 | version document keys determine organisation, name and version |
| `Routes.CdnReadsVersionDocument` | workers/cdn-proxy/src/index.js:54-69 | the CDN reads a version document key exactly when the version has no two adjacent dots and does not end in one |
| `Routes.CdnReadsArtifact` | workers/cdn-proxy/src/index.js:54-69 | the CDN reads every `tar.gz` and `zip` artifact key |
| `CdnKeys.CdnReadsExactly` | workers/cdn-proxy/src/index.js:54-69 | under its own path the CDN reads exactly artifacts in both formats, and package indexes and version documents whose key has at most 512 characters and no two dots together |
| `JsonText.EscapeCancel` | workers/public-intake/src/index.js:512-512 | JSON text escapes are uniquely decodable: two escaped texts that go on alike are the same text |
| `JsonText.StringifyInjective` | workers/shared/edge-publish.js:576-583 | two JSON values print alike exactly when they are the same, so a stored text can be read back at all |
| `CanonicalJson.SameCanon` | workers/public-intake/src/index.js:504-513 | values that differ only in the order of properties, at any depth, print alike |
| `CanonicalJson.CanonCancel` | workers/public-intake/src/index.js:504-513 | a printed value ends where it says it ends, and determines the value up to the order of properties |
| `CanonicalJson.CanonicalExactly` | workers/public-intake/src/index.js:504-513 | canonical texts are equal exactly when the values are equal up to the order of properties |
| `CanonicalJson.CanonObject` | workers/public-intake/src/index.js:506-511 | an object prints as its properties in ascending order of UTF-16 code units, name, colon and canonical value, joined by commas between braces |
| `CanonicalJson.CanonOthers` | workers/public-intake/src/index.js:504-513 | every other value prints as in JSON, a list in its own order |
| `IntakeSigning.CanonWellFormed` | workers/public-intake/src/index.js:512-512 | a canonical text has no lone surrogate, so encoding it as UTF-8 loses nothing |
| `IntakeSigning.CanonicalBytes` | workers/public-intake/src/index.js:504-521 | canonical bytes are equal exactly when the values are equal up to the order of properties |
| `IntakeSigning.PreimageReads` | workers/public-intake/src/index.js:547-551 | the signed text splits into `v1`, timestamp, host, path, request identifier and body digest, in this order |
| `IntakeSigning.SignatureBinds` | workers/public-intake/src/index.js:547-554 | two requests have the same signed bytes exactly when timestamp, route, request identifier and payload agree, the payload up to the order of properties |
| `Packagist.ApplyDelta` | workers/shared/native-packagist.js:63-70 | the loop over a delta sets and deletes properties of a copy of the previous version |
| `Packagist.ExpandMinified` | workers/shared/native-packagist.js:48-74 | the loop over a minified list expands every version, or nothing when an entry is no record |
| `Packagist.ExpandPackagistVersions` | workers/shared/native-packagist.js:33-75 | a list without minification is copied; an unknown minification yields nothing |
| `Packagist.ExpandExactly` | workers/shared/native-packagist.js:33-75 | no list, an unknown minification or an entry that is no record gives nothing; a list without minification is copied, a minified one expanded |
| `Packagist.ExpansionMeaning` | workers/shared/native-packagist.js:48-74 | property k of version i is what the last delta up to i that mentions k says; a first record is taken literally |
| `Packagist.PrototypeIsLocal` | workers/shared/native-packagist.js:63-70 | a `__proto__` in a delta gives a prototype to that version alone |
| `Packagist.PrototypeSet` | workers/shared/native-packagist.js:63-70 | a record or list named `__proto__` in a delta becomes the version's prototype and no property of it |
| `Packagist.ExpandUndoesMinify` | workers/shared/native-packagist.js:27-32 | expansion undoes minification of every list of records without `__unset` values and `__proto__` keys |
| `PackagistCatalog.PackagistVersions` | workers/shared/native-packagist.js:77-89 | the loop lists the versions of bound entries, each once, in order |
| `PackagistCatalog.GetExactly` | workers/shared/native-packagist.js:184-192 | a property is the entry's own, or else its prototype's |
| `PackagistCatalog.ListString` | workers/shared/native-packagist.js:198-206 | a list prints its elements between commas, `null` as nothing |
| `PackagistCatalog.NoCoordinate` | workers/shared/native-packagist.js:7-16 | a coordinate that is none has no versions and no downloads |
| `PackagistCatalog.ListedExactly` | workers/shared/native-packagist.js:77-89 | a version is listed exactly when some entry with it is bound to an archive; no version is listed twice |
| `PackagistCatalog.ListedInOrder` | workers/shared/native-packagist.js:77-89 | versions are listed in the order of their first bound entries |
| `PackagistBinding.BindsExactly` | workers/shared/native-packagist.js:184-292 | an entry is bound to an archive exactly when it is of the coordinate, with a safe version, a zip without a checksum, and source and zip of one commit of one GitHub repository |
| `PackagistCatalog.DownloadExactly` | workers/shared/native-packagist.js:91-105 | a version can be downloaded exactly when it is listed and the first entry that carries it is bound |
| `PackagistCatalog.UniqueDownloads` | workers/shared/native-packagist.js:91-105 | when versions are unique, listed and downloadable agree |
| `PackagistCatalog.ShadowedVersion` | workers/shared/native-packagist.js:91-105 | an unbound first entry hides a bound one: the version is listed and offered as latest, but not downloadable |
| `PackagistExamples.EntryBinds` | workers/shared/native-packagist.js:184-292 | every archive that a binding can name is bound by some entry |
| `PackagistExamples.ShadowedExample` | workers/shared/native-packagist.js:77-105 | for every coordinate, version and archive there is a metadata document that lists the version, offers it as the latest, and has no download for it |
| `PackagistExamples.ShadowedInput` | workers/shared/native-packagist.js:77-105 | there are such coordinates, versions and archives |
| `PackagistCatalog.LatestIsListed` | workers/shared/native-packagist.js:152-159 | the latest version is a listed one, and there is one exactly when something is listed |
| `PackagistCatalog.LatestExactly` | workers/shared/native-packagist.js:152-159 | the latest version is that of the first entry whose version is listed, else the head of the list |
| `PackagistCatalog.UrlDeterminesBinding` | workers/shared/native-packagist.js:103-105 | an archive URL determines owner, repository and commit |
| `PackagistCatalog.CandidateAllowed` | workers/shared/native-packagist.js:119-150 | every download that is offered passes the validator of download URLs |
| `PackagistCatalog.AllowedExactly` | workers/shared/native-packagist.js:119-150 | a download URL is allowed exactly when it is the candidate's and parses to the archive's path on its host and nothing more |
| `IsolationAudit.ContractFindings` | infra-isolation/policy.mjs:18-37 | the pushed findings are those of the contract specification |
| `IsolationAudit.ReadinessFindings` | infra-isolation/policy.mjs:39-49 | findings of a bad contract, else one for every value that is `null` |
| `IsolationSpec.DriftExactly` | infra-isolation/policy.mjs:94-100 | an observed project has no drift finding exactly when it is what the contract says |
| `IsolationAudit.EndpointFindings` | infra-isolation/policy.mjs:101-109 | the findings about the endpoints of one project |
| `IsolationAudit.AuditSnapshot` | infra-isolation/policy.mjs:69-112 | the pushed findings are those of the snapshot specification |
| `IsolationSpec.SameExactly` | infra-isolation/policy.mjs:11-11 | `same` is equality of multisets |
| `IsolationSpec.ReadyExactly` | infra-isolation/policy.mjs:18-49 | a contract has no findings exactly when it is complete, has one area per role and one project per provider and role, and shares no resource |
| `IsolationSpec.ProjectAuditExactly` | infra-isolation/policy.mjs:89-110 | auditing the first match of a project is auditing every observation of it |
| `IsolationSpec.SnapshotExactly` | infra-isolation/policy.mjs:69-112 | the audit is silent exactly when the contract is ready and the snapshot is isolated, a declarative requirement |
| `IsolationSpec.SilenceCertifies` | infra-isolation/policy.mjs:69-112 | a silent audit means one endpoint per contracted identifier, one project per endpoint, and endpoints of different roles in different private networks with disjoint source groups and no public range |
| `IsolationProbes.MatrixFindings` | infra-isolation/policy.mjs:120-144 | the loop over batches collects findings, sources and runs |
| `IsolationProbes.AuditProbes` | infra-isolation/policy.mjs:114-145 | the pushed findings are those of the probe specification |
| `IsolationProbes.ProbesExactly` | infra-isolation/policy.mjs:114-145 | the probe audit is silent exactly for an active, silent snapshot and a complete matrix |
| `IsolationProbes.ThirtyCells` | infra-isolation/policy.mjs:120-144 | a complete matrix has five batches and thirty observations: six allowed, twenty-four denied, none inconclusive |
| `IsolationProbes.ProbesCertify` | infra-isolation/policy.mjs:114-145 | a silent probe audit certifies isolation, one conclusive batch per source, one run, and the thirty observations |
| `IsolationVerdict.SnapshotVerdict` | infra-isolation/policy.mjs:69-147 | with a ready contract a snapshot fails exactly when something observed contradicts the contract, is held exactly when nothing does but the collection is incomplete, and passes otherwise |
| `IsolationVerdict.ProbeVerdict` | infra-isolation/policy.mjs:114-147 | after a silent snapshot the probes are held while the projects are not active or the number of batches is wrong, fail exactly when a batch is malformed, of something else, of another run, or a probe contradicts the isolation, are held when something is missing or inconclusive, and pass otherwise |
| `IsolationOrder.SnapshotVerdictIgnoresOrder` | infra-isolation/policy.mjs:69-112 | the verdict on a snapshot is the same for every order of its lists and of the lists inside them |
| `IsolationOrder.ProbeVerdictIgnoresOrder` | infra-isolation/policy.mjs:114-147 | the verdict on live evidence is the same for every order of snapshot, batches and results |
| `EdgeCapability.HasDuplicate` | workers/shared/edge-capability.js:165-172 | the loop over keys seen so far finds a duplicate exactly when there is one |
| `EdgeCapability.ChooseKey` | workers/shared/edge-capability.js:145-173 | the key, or the error, of key selection |
| `EdgeCapability.CheckGrants` | workers/shared/edge-capability.js:436-453 | grants are one to sixteen valid ones with different tuples, or an error |
| `EdgeAcceptance.AcceptedExactly` | workers/shared/edge-capability.js:102-213 | a token is accepted, with these claims, exactly when its header names ES256 and one key of an unambiguous set, that key signed it, the signed record names the configured issuer and audience and is what comes out, with nothing else in it, it is current, every grant stands, and a v3 capability weathers the outage policy |
| `EdgeAcceptance.SignatureExactly` | workers/shared/edge-capability.js:144-196 | claims are taken exactly from a token whose header has just `alg`, `typ` and `kid` and whose other parts were signed by an importable key of that `kid` |
| `EdgeAcceptance.GrantsExactly` | workers/shared/edge-capability.js:436-453 | grants are read exactly from a list of one to sixteen records, each a grant to read in six fields at most, no two for one tuple |
| `EdgeAuthority.SelectedKeyExactly` | workers/shared/edge-capability.js:145-173 | a key is trusted exactly when it is usable, has the kid, and no two usable keys share any kid |
| `EdgeAuthority.KeySelectionIgnoresOrder` | workers/shared/edge-capability.js:145-173 | selected key and error are the same for every order of the key set |
| `EdgeAuthority.NarrowerAcceptsLess` | workers/shared/edge-capability.js:109-125 | what a verifier with narrower settings accepts, one with default settings accepts with equal claims |
| `EdgeAuthority.OutageExactly` | workers/shared/edge-capability.js:756-828 | a v3 capability is admitted exactly inside the capability, revocation, key set and outage windows and above the minimum epochs |
| `EdgeAuthority.AcceptedIsSound` | workers/shared/edge-capability.js:337-477 | an accepted capability is current, lives at most 300 seconds, has one to sixteen grants with different tuples, and carries lineage exactly from v2 on and provenance exactly in v3 |
| `EdgeAuthority.AcceptedOutage` | workers/shared/edge-capability.js:206-208 | a v3 capability is accepted only from its `nbf` up to its expiry, without skew |
| `EdgeAuthority.ClaimsPermuted` | workers/shared/edge-capability.js:436-453 | permuting the grants of accepted claims leaves them accepted, with the grants permuted |
| `EdgePlanning.PlanIgnoresOrder` | workers/shared/edge-capability.js:240-279 | plan and refusal are the same for every order of the grants |
| `EdgePlanning.PlanCarriesGrant` | workers/shared/edge-capability.js:240-279 | a plan carries the credential reference of a grant for exactly the requested provider, package and resource |
| `EdgePlanning.PlanExactly` | workers/shared/edge-capability.js:228-278 | a request gets a plan exactly when it only reads, a grant is for its provider, package and resource, and its URL is an `https:` URL without credentials inside what the grant is for |
| `PathConfinement.PathBeginsWithSegments` | workers/shared/edge-capability.js:664-683 | the loop accepts a path exactly when all its decoded segments are safe and it starts with the expected ones |
| `PathConfinement.BeginsExactly` | workers/shared/edge-capability.js:664-683 | a path is accepted exactly when every segment decodes to one that is no dot segment and has no separator, and the first are the expected ones |
| `PathConfinement.AcceptedPathIsConfined` | workers/shared/edge-capability.js:664-683 | an accepted path, decoded once and then freed of dot segments (section 5.2.4 of RFC 3986), is the expected segments followed by nothing or by further segments |
| `EdgePlanning.GithubPlanIsConfined` | workers/shared/edge-capability.js:578-602 | a planned GitHub request goes to one of three hosts and stays below the authorized owner and repository |
| `EdgePlanning.CargoDownloadExactly` | workers/shared/edge-capability.js:32-32 | the private download grammar reads exactly the paths it spells |
| `EdgePlanning.CargoExactly` | workers/shared/edge-capability.js:625-650 | a Cargo URL is accepted exactly when it is spelled origin, authorized crate, one version and `/download`, and the version is unique |
| `CredentialBroker.AskedLifetime` | workers/shared/provider-credential-broker.js:69-83 | the broker is asked for the least of the requested time, the life the capability has left, and 300 seconds, and for at least one |
| `BrokerAcceptance.ContextExactly` | workers/shared/edge-capability.js:301-330 | the broker context of a capability is exactly its subject, lineage, identifier, expiry and provenance |
| `BrokerAcceptance.AskedExactly` | workers/shared/provider-credential-broker.js:62-114 | the broker is asked exactly when nine conditions hold, for the planned tuple and the least lifetime; otherwise the first that fails is the error and no request is sent |
| `BrokerAcceptance.TakenExactly` | workers/shared/provider-credential-broker.js:115-148 | an answer is taken exactly when its headers, size and record meet fifteen conditions, and is then what the record says; otherwise the first that fails is the error |
| `CredentialBroker.CredentialIsNarrow` | workers/shared/provider-credential-broker.js:231-312 | a credential ends after now and not after the capability, fits the lifetime asked for, keeps resource, reference and capability, and only reads |
| `CredentialBroker.OnlyV2ReachesTheBroker` | workers/shared/provider-credential-broker.js:204-228 | of all verified capabilities only v2 ones lead to a request to the broker |
| `CredentialBroker.CapabilityBoundsCredential` | workers/shared/provider-credential-broker.js:62-148 | for any clock readings a credential obtained through a capability ends after now, not after the capability's expiry, and within 300 seconds of its issue, and covers the resource and reference of one of its grants |
| `EdgeService.Edge.Publish` | workers/registry-proxy/src/index.js:83-106 | publishing at the edge uses up the body and leaves the bucket and the status of `handleEdgePublish` |
| `EdgeService.Edge.AskBucket` | workers/registry-proxy/src/index.js:209-221 | the bucket's answer is that of `readJsonObject` for a version and of `r2PackageMetadata` for a package |
| `EdgeService.Edge.CdnArtifact` | workers/registry-proxy/src/index.js:231-250 | the loop over formats asks the second only after a 404 on the first, and any other status is the answer |
| `EdgeService.Edge.PublicSources` | workers/registry-proxy/src/index.js:159-199 | effects and answer of the fallback sources |
| `EdgeService.Edge.Fetch` | workers/registry-proxy/src/index.js:52-199 | effects and answer of one request are those of its run; the body is read at most once, and exactly when the request is admitted; the bucket changes only by a publish at the edge |
| `EdgeService.PublishedHereIsServed` | workers/registry-proxy/src/index.js:77-221 | what a PUT published at the edge every later GET or HEAD answers from the bucket while the origin is down or does not know it, whatever other publishers do, exactly when the document is at most 1 MiB; otherwise the native registries are asked |
| `EdgeService.PackageIsServed` | workers/registry-proxy/src/index.js:215-219 | a package listing is answered from the bucket exactly when its newest document is at most 1 MiB |
| `EdgeService.NonPublicStaysHidden` | workers/registry-proxy/src/index.js:164-175 | a version document marked non-public is answered 404 for ever, whatever is published, and no source after the bucket is asked |
| `EdgeService.HiddenIsNotServed` | workers/registry-proxy/src/index.js:164-175 | while the origin does not answer, a version is answered 404 without asking another source exactly when the marker or the text of its stored document is not public |
| `EdgeService.HiddenIsNotListed` | workers/registry-proxy/src/index.js:215-219 | the same holds of a package and its newest document |
| `RegistryHandler.BodyConsumedOnce` | workers/registry-proxy/src/index.js:77-106 | the steps that take the request body, forwarding to the origin and publishing at the edge, happen exactly once in an admitted request and never in a refused one |
| `RegistryHandler.WritesStayWrites` | workers/registry-proxy/src/index.js:83-118 | a write reaches the origin, or the edge exactly when the probe found the origin down, and never a source of reads |
| `RegistryHandler.EdgePublishExactly` | workers/registry-proxy/src/index.js:83-118 | the edge publishes exactly when a version is PUT, publishing is enabled and the probe failed or answered 0, 502, 503, 504 or 521 to 524; every other write is answered by the origin, or with a 503 when it is down |
| `RegistryHandler.RefusedExactly` | workers/registry-proxy/src/index.js:52-75 | unknown routes are answered 404, wrong methods 405 and preflights 204, and these requests alone ask nobody |
| `RegistryHandler.HealthExactly` | workers/registry-proxy/src/index.js:120-138 | health is the origin's 200 or degraded |
| `RegistryHandler.OriginReadExactly` | workers/registry-proxy/src/index.js:140-157 | other reads are the origin's while it is up; while it is down an artifact is asked from the CDN in two formats, and everything else is a 503 |
| `RegistryHandler.FirstSourceAnswers` | workers/registry-proxy/src/index.js:97-199 | a fallback read consults a prefix of origin, bucket, native registry and GitHub; the answer is that of the first that decides, else the origin's 404 or a 503 |
| `RegistryHandler.InvalidStateExactly` | workers/registry-proxy/src/index.js:159-162 | the state the handler calls invalid is reached exactly when the origin did not answer and organisation or name are slug characters that form no slug |
| `RegistryHandler.InvalidStateReached` | workers/registry-proxy/src/index.js:159-162 | every such name reaches it while the origin is down |
| `RegistryHandler.InvalidStateExample` | workers/registry-proxy/src/index.js:159-162 | a GET of `/v1/packages/-a/a` is answered 500 while the origin is down |
| `Redirects.FetchWithValidatedRedirects` | workers/cdn-proxy/src/index.js:246-270 | requests and result of the loop are those of following redirects |
| `Redirects.JudgeExactly` | workers/cdn-proxy/src/index.js:261-267 | a redirect is followed exactly after status 301, 302, 303, 307 or 308 with a location that resolves, at most three times; any other status is the answer |
| `Redirects.FollowIsBounded` | workers/registry-proxy/src/index.js:534-557 | for every network at most four requests, each to an allowed URL and each where the last one pointed; a result is the answer of the last request |
| `Redirects.ServedExactly` | workers/cdn-proxy/src/index.js:246-270 | in a fixed graph of answers the loop serves something exactly when an answer is at most three redirects away, over allowed URLs only |
| `Redirects.CyclesEnd` | workers/cdn-proxy/src/index.js:246-270 | in any graph, from a URL that leads into a cycle of redirects nothing is served, after at most four requests |
| `Redirects.ReleaseWalkStaysOnHosts` | workers/registry-proxy/src/index.js:775-791 | from any URL the release loop only asks `https` release hosts, and GitHub itself only for release downloads |
| `Redirects.ReleaseExactly` | workers/registry-proxy/src/index.js:775-791 | a release URL is allowed exactly on three hosts, without credentials and port, and on GitHub itself with `/releases/download/` in its path |
| `Redirects.CompleteNativeDownload` | workers/registry-proxy/src/index.js:324-366 | a complete candidate is returned without a request; any other is digested from what the walk serves |
| `Redirects.DigestedExactly` | workers/registry-proxy/src/index.js:348-363 | there is a digest exactly for a successful answer that declares one byte to 32 MiB and is that long |
| `Redirects.CompleteExactly` | workers/registry-proxy/src/index.js:324-327 | a candidate needs no request exactly with a digest of 64 hexadecimal digits and a safe positive size |
| `Redirects.DigestIsOfServedBytes` | workers/registry-proxy/src/index.js:348-363 | a computed digest is that of the bytes served at the returned, allowed URL, with size equal to the declared length and at most 32 MiB |
| `NativeUrls.DecodeEncode` | workers/shared/native-public-core.js:224-226 | percent-decoding undoes percent-encoding of every text |
| `PercentDecoding.EscapeExactly` | workers/shared/native-public-core.js:224-226 | an escape is a percent sign and two hexadecimal digits, the high one first |
| `PercentDecoding.HexExactly` | workers/shared/native-public-core.js:224-226 | hexadecimal digits are read in either case |
| `NativeUrls.MavenUrlDetermines` | workers/shared/native-public-core.js:214-227 | distinct Maven coordinates and versions never share an artifact URL |
| `NativeUrls.MavenUrlReads` | workers/shared/native-public-core.js:214-227 | decoded segment by segment a Maven URL is the repository, the parts of the group, artifact, version and the file named after both |
| `NativeUrls.MavenAccepts` | workers/shared/native-public-core.js:214-227 | there is a Maven URL exactly for two non-empty parts around the only colon |
| `NativeUrls.EscapeGoUppercase` | workers/shared/native-public-core.js:906-916 | the loop escapes every upper-case letter |
| `NativeUrls.EscapeInjective` | workers/shared/native-public-core.js:906-916 | escaping is injective on texts without `!` |
| `NativeUrls.GoUrlIsLower` | workers/shared/native-public-core.js:239-250 | a Go artifact URL has no upper-case letter |
| `NativeUrls.GoUrlDetermines` | workers/shared/native-public-core.js:239-250 | distinct Go modules and versions have distinct artifact URLs, even in lower case |
| `NativeUrls.GoAccepts` | workers/shared/native-public-core.js:239-250 | there is a Go URL exactly for a module path and a version of the module proxy |
| `NativeUrls.GoUrlReads` | workers/shared/native-public-core.js:239-250 | unescaped, a Go URL is the proxy, the module and the version |
| `CranDescription.ParseCranDescription` | workers/shared/native-cpan-cran.js:113-142 | the loop over lines computes the parser's result |
| `CranDescription.ParseExactly` | workers/shared/native-cpan-cran.js:113-142 | a text is a description exactly when its fields hold a safe name and a safe version, and is then these fields |
| `CranDescription.SpaceExactly` | workers/shared/native-cpan-cran.js:113-142 | `trim` removes exactly the white space and line ends of ECMAScript |
| `CranDescription.ParseUndoesPrint` | workers/shared/native-cpan-cran.js:113-142 | parsing undoes printing of every record with a valid name and version, whatever the folding, indentation and line ends |
| `CranDescription.FoldingIsInvisible` | workers/shared/native-cpan-cran.js:113-142 | two foldings of the same words parse alike |
| `CranDescription.ContentsAt` | workers/shared/native-cpan-cran.js:113-142 | the record that is read holds each field's words, separated by single spaces |
| `CranDescription.IgnoredFieldLeaks` | workers/shared/native-cpan-cran.js:121-134 | from any state an ignored field with its continuation lines leaves the record as it is exactly when none of those lines, read on its own, starts an allowed field |
| `CranDescription.ParseSkipsOthers` | workers/shared/native-cpan-cran.js:113-142 | with any ignored fields between the printed ones whose continuation lines do not look like an allowed field, parsing gives the record of the printed ones |
| `CranDescription.LeakedTitle` | workers/shared/native-cpan-cran.js:121-134 | a text whose title comes out of the second line of an ignored field |
| `Grammars.JtiShape` | workers/shared/edge-capability.js:30-30 | the pattern of token identifiers |
| `Grammars.LineageShape` | workers/shared/edge-capability.js:31-31 | the pattern of lineage identifiers |
| `Grammars.CredentialRefShape` | workers/shared/edge-capability.js:29-29 | the pattern of credential references |
| `Grammars.CrateShape` | workers/shared/edge-capability.js:25-25 | the pattern of crate names |
| `Grammars.RepositoryShape` | workers/shared/edge-capability.js:23-23 | a GitHub resource is two parts of letters, digits and `_.-` around its only slash |
| `Grammars.ScopedShape` | workers/shared/edge-capability.js:24-24 | the pattern of scoped npm packages |
| `Grammars.PackageShape` | workers/shared/edge-capability.js:22-22 | a package coordinate is two slugs around its only slash |
| `Grammars.SlugShape` | workers/shared/github-fallback.js:15-24 | a slug is letters and digits with single hyphens between them, at most 128 |
| `Grammars.VersionShape` | workers/shared/edge-publish.js:55-55 | the pattern of versions |
| `Grammars.OrgShape` | workers/shared/edge-publish.js:54-54 | the pattern of organisation names |
| `Grammars.CranNameShape` | workers/shared/native-cpan-cran.js:1-1 | the pattern of CRAN package names |
| `Grammars.NativeVersionShape` | workers/shared/native-public-core.js:19-19 | the pattern of native versions, which CRAN shares |
| `Grammars.PackagistShape` | workers/shared/native-packagist.js:1-2 | the patterns of Packagist components, repositories and versions |
| `Grammars.ReferenceShape` | workers/shared/native-packagist.js:3-3 | a commit is 40 or 64 hexadecimal digits |
| `Grammars.ModuleShape` | workers/shared/native-public-core.js:887-899 | a Go module path is two to 32 parts, a host first |
| `Grammars.GoVersionShape` | workers/shared/native-public-core.js:901-930 | a Go version starts with `v` and has letters, digits and `.+~-` |
| `Grammars.CoordinateShape` | workers/shared/native-packagist.js:7-16 | a Packagist coordinate is two components around its only slash, without `..` |

## Left out

- HandleEdgePublish: the prose in the `detail` of an error, the GHCR mirror and the comparison of bearer tokens are not part of it; authorization is a flag of the request.
- CountBody: the transfer's abort signal is not modelled; the counter is.
- ReadText: the decoder's output is scalar values; JSON parsing of the text is a parameter of `ReadJsonObject`.
- SignatureBinds: HMAC itself is not modelled; the statement is about the bytes that are signed.
- Fetch: which headers are forwarded, timeouts and response bodies are not modelled; consulting a source counts as an effect even when the source is not configured, and an `ORIGIN_URL` that is no URL is not considered.
- PlanProviderRequest: the npm branch is modelled without a confinement statement of its own.
- CandidateAllowed: relies on `Urls.ParsesPlainly` for `codeload.github.com`.
- ReadinessFindings: findings for `null` values come in the order of the schema's properties, whatever order the JSON document has.
- AuditSnapshot: unknown or missing JSON properties are one case, an absent snapshot; the schema of a contract is a premise, or a list of schema errors.
- RequestProviderCredential: the client reads the response headers as verdicts (`no-store`, JSON, declared length); parsing those headers is not modelled.
- VerifyEdgeCapability: signature checking, key import and segment decoding are parameters.
- GoUrl: the statements hold for every module path and version the URL builder takes; the registry grammar in front of it and the optional file name behind it are left out.
- FetchWithValidatedRedirects: of a reply the status, `Location`, the declared length and the body are modelled; request headers and timeouts are not, and a request that times out fails.
- PublishedHereIsServed: the body of the answer is the document that was read; its JSON text is not stated a second time.
- Validation of release sidecars, release feeds and GitHub API answers: field checks on parsed values.
- Clojars, Hex, RubyGems, CPAN and Terraform adapters, the v2 to v4 dispatch layers and the private source broker: field checks without state.
- The origin handshake: a small decision table with a finite model of its own in `formal/`.
- HTML forms, Turnstile, response headers, ranges and conditional requests: user interface and HTTP details.
- The Composer minifier is not in the repository; `Packagist.MinifiedAt` states what its documentation promises.
