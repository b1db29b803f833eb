/**
 * The keys a publish writes are keys that the CDN reads, with the two
 * exceptions the code has (workers/cdn-proxy/src/index.js:54-69).
 */
module PublishReadable {
  import opened Common
  import opened Routes
  import opened EdgePublish
  import opened PublishMeta
  import opened PublishSafety
  import Text

  lemma RouteParts(path: string)
    requires ParseRegistryPath(path).Some? && ParseRegistryPath(path).value.PublishRoute?
    ensures var route := ParseRegistryPath(path).value;
      && IsSlug(route.org) && IsPackageNameSegment(route.name) && SafeVersionSegment(route.version)
  {
  }

  /** A native coordinate is never published here: its key would not be a registry key. */
  lemma NativeCoordinatesAreRefused(w: World, id: nat, path: string)
    requires ValidWorld(w) && ParseRegistryPath(path) == Some(w.jobs(id).route)
    requires NativeSegment(w.jobs(id).route.name)
    ensures PlanOf(w, id).Refuse?
  {
    SlugNotNative(w.jobs(id).route.name);
  }

  /** With the default CDN the download URL is the CDN's path for the artifact key. */
  lemma DefaultDownloadUrl(w: World, id: nat)
    requires ValidWorld(w) && PlanOf(w, id).Write? && w.jobs(id).cfg.cdnBase in {"", DEFAULT_CDN}
    ensures PlanOf(w, id).doc.downloadUrl == DEFAULT_CDN + "/" + PlanOf(w, id).objectKey
  {
    var meta := PlanSource(w, id);
    DownloadUrl(w.hash, w.jobs(id).cfg, w.jobs(id).route, meta, PlanOf(w, id));
    DefaultBase(w.jobs(id).cfg);
  }

  lemma DefaultBase(cfg: Config)
    requires cfg.cdnBase in {"", DEFAULT_CDN}
    ensures CdnBase(cfg) == DEFAULT_CDN
  {
  }

  lemma InheritedIsNotRead(sha256: string, ext: string, key: string)
    requires ext == "function Object() { [native code] }" || ext == "[object Object]"
    requires IsSha256(sha256) && key == "artifacts/" + sha256 + "." + ext
    ensures CdnReads("/" + key) == None
  {
    var file := sha256 + "." + ext;
    assert key == "artifacts/" + file && '/' !in file;
    ArtifactSegments(file);
    NotAFile(file, sha256, ext);
    TrimPlain(key);
    NotServed(key);
  }

  lemma NotServed(key: string)
    requires Text.TrimEnd(key, '/') == key && TrimStart("/" + key) == key && ("/" + key)[1..] == key
    requires !ContentObject(Text.Split(key, '/')) && !GithubOrPackageObject(Text.Split(key, '/'))
    requires !IsMetadataKey(key)
    ensures CdnReads("/" + key) == None
  {
    assert ParseCdnPath("/" + key).None?;
  }

  lemma NotAFile(file: string, sha256: string, extension: string)
    requires extension == "function Object() { [native code] }" || extension == "[object Object]"
    requires IsSha256(sha256) && file == sha256 + "." + extension
    ensures !ContentObject(["artifacts", file]) && !GithubOrPackageObject(["artifacts", file])
    ensures !IsMetadataKey("artifacts/" + file)
  {
    assert file[65..] == extension;
    assert !FileChar(extension[0]) || !FileChar(extension[8]);
    assert '/' !in file;
    ArtifactSegments(file);
  }

  lemma ExtensionCases(format: Format) returns (ext: string)
    requires ArtifactExtension(format).Some?
    ensures ext == ArtifactExtension(format).value
    ensures !Inherited(format) ==> ext == "tar.gz" || ext == "zip"
    ensures Inherited(format) ==> ext == "function Object() { [native code] }" || ext == "[object Object]"
  {
    ext := ArtifactExtension(format).value;
  }

  lemma FormatIsReadable(sha256: string, format: Format, key: string)
    requires IsSha256(sha256) && ArtifactExtension(format).Some?
    requires key == "artifacts/" + sha256 + "." + ArtifactExtension(format).value
    ensures CdnReads("/" + key) == if Inherited(format) then None else Some(key)
  {
    var ext := ExtensionCases(format);
    if Inherited(format) {
      InheritedIsNotRead(sha256, ext, key);
    } else {
      CdnReadsArtifact(sha256, ext);
    }
  }

  /**
   * The artifact key of an accepted publish is read by the CDN exactly when
   * the declared format is one of the table's own, and not a property that
   * every JavaScript object inherits.
   */
  lemma PublishedArtifactIsReadable(w: World, id: nat)
    requires ValidWorld(w) && PlanOf(w, id).Write?
    ensures CdnReads("/" + PlanOf(w, id).objectKey) == Some(PlanOf(w, id).objectKey)
            <==> !Inherited(DeclaredFormat(w.jobs(id).req))
  {
    var meta := PlanSource(w, id);
    FormatIsReadable(w.hash(PlanOf(w, id).bytes), meta.format, PlanOf(w, id).objectKey);
  }

  lemma RouteDocumentIsReadable(route: Route, key: string, path: string)
    requires ParseRegistryPath(path) == Some(route) && route.PublishRoute?
    requires VersionMetadataKey(route.org, route.name, route.version) == Some(key)
    ensures CdnReads("/" + key) == Some(key) <==> route.version[|route.version| - 1] != '.'
  {
    RouteParts(path);
    if NativeSegment(route.name) { SlugNotNative(route.name); }
    CdnReadsVersionDocument(route.org, route.name, route.version);
  }

  /**
   * For every route the registry parses, the version document of an accepted
   * publish is read by the CDN exactly when the version does not end in a dot.
   */
  lemma PublishedDocumentIsReadable(w: World, id: nat, path: string)
    requires ValidWorld(w) && PlanOf(w, id).Write? && ParseRegistryPath(path) == Some(w.jobs(id).route)
    ensures CdnReads("/" + PlanOf(w, id).versionKey) == Some(PlanOf(w, id).versionKey)
            <==> w.jobs(id).route.version[|w.jobs(id).route.version| - 1] != '.'
  {
    var meta := PlanSource(w, id);
    RouteDocumentIsReadable(w.jobs(id).route, PlanOf(w, id).versionKey, path);
  }

  lemma JoinSeven(org: string, name: string, version: string)
    ensures |Text.Join(["", "v1", "packages", org, name, "versions", version], "/")| ==
            |org| + |name| + |version| + 24
  {
    Text.JoinCons("versions", [version], "/");
    Text.JoinCons(name, ["versions", version], "/");
    Text.JoinCons(org, [name, "versions", version], "/");
    Text.JoinCons("packages", [org, name, "versions", version], "/");
    Text.JoinCons("v1", ["packages", org, name, "versions", version], "/");
    Text.JoinCons("", ["v1", "packages", org, name, "versions", version], "/");
  }

  /** Every slug coordinate can be published at its own path, `1.` included. */
  lemma PublishPathRoutes(org: string, name: string, version: string)
    requires IsSlug(org) && IsSlug(name) && SafeVersionSegment(version)
    ensures var path := Text.Join(["", "v1", "packages", org, name, "versions", version], "/");
      ParseRegistryPath(path) == Some(PublishRoute(org, name, version)) && Classify("PUT", path) == OriginWrite
  {
    var segs := ["", "v1", "packages", org, name, "versions", version];
    SlugIsChars(org);
    SlugIsChars(name);
    NamesArePlain(org);
    NamesArePlain(name);
    NamesArePlain(version);
    JoinSeven(org, name, version);
    NormalizeJoined(segs);
    VersionRouteMatches(segs);
  }

  /** So the registry accepts a version whose document the CDN never serves. */
  lemma TrailingDotExample()
    ensures IsSlug("a") && SafeVersionSegment("1.")
    ensures VersionMetadataKey("a", "a", "1.").Some?
    ensures CdnReads("/" + VersionMetadataKey("a", "a", "1.").value).None?
  {
    Text.SplitAtom("a", '-');
    CdnReadsVersionDocument("a", "a", "1.");
  }
}
