/**
 * Which keys of the bucket the CDN reads at all (`CanonicalCdnKey`,
 * `ARTIFACT_KEY` and `METADATA_KEY` of workers/cdn-proxy/src/index.js).
 */
module CdnKeys {
  import opened Common
  import opened Routes
  import Text

  ghost predicate ArtifactKey(key: string) {
    exists digest, extension ::
      IsSha256(digest) && extension in {"tar.gz", "zip"} && key == "artifacts/" + digest + "." + extension
  }

  function IndexKey(org: string, name: string): string { "metadata/" + org + "/" + name + "/index.json" }

  predicate IsIndex(key: string, org: string, name: string) { OrgName(org) && OrgName(name) && key == IndexKey(org, name) }

  predicate IsVersion(key: string, org: string, name: string, version: string) {
    OrgName(org) && OrgName(name) && VersionGrammar(version, 128) && key == VersionPrefixKey(org, name) + version + ".json"
  }

  /** The index of a package, or one of its version documents. */
  ghost predicate MetadataKey(key: string) {
    || (exists org, name :: IsIndex(key, org, name))
    || exists org, name, version :: IsVersion(key, org, name, version)
  }

  lemma ArtifactExactly(key: string)
    ensures IsArtifactKey(key) <==> ArtifactKey(key)
  {
    if IsArtifactKey(key) {
      var extension := if key[74..] == ".zip" then "zip" else "tar.gz";
      assert key[74..] == "." + extension;
      assert extension in {"tar.gz", "zip"} && IsSha256(key[10..74]);
      assert key == key[..10] + key[10..74] + key[74..];
      assert key == "artifacts/" + key[10..74] + "." + extension;
    }
    if digest, extension :|
      IsSha256(digest) && extension in {"tar.gz", "zip"} && key == "artifacts/" + digest + "." + extension
    {
      ArtifactKeyGrammar(digest, extension);
    }
  }

  lemma IndexSegments(org: string, name: string)
    requires OrgName(org) && OrgName(name)
    ensures Text.Split(IndexKey(org, name), '/') == ["metadata", org, name, "index.json"]
  {
    OrgNameIsPlain(org);
    OrgNameIsPlain(name);
    Text.SplitAtom("index.json", '/');
    var tail := name + "/" + "index.json";
    Text.SplitOnto(name, "index.json");
    Text.SplitOnto(org, tail);
    Text.SplitOnto("metadata", org + "/" + tail);
    IndexNested(org, name);
  }

  lemma IndexNested(org: string, name: string)
    ensures IndexKey(org, name) == "metadata" + "/" + (org + "/" + (name + "/" + "index.json"))
  {
    var tail := name + "/" + "index.json";
    assert "metadata/" + org + "/" + name + "/index.json" == "metadata/" + org + "/" + tail;
    assert "metadata/" + org + "/" + tail == "metadata" + "/" + (org + "/" + tail);
  }

  lemma SameSegments(a: string, b: string)
    requires Text.Split(a, '/') == Text.Split(b, '/')
    ensures a == b
  {
    Text.JoinSplit(a, '/');
    Text.JoinSplit(b, '/');
  }

  lemma MetadataExactly(key: string)
    ensures IsMetadataKey(key) <==> MetadataKey(key)
  {
    var segs := Text.Split(key, '/');
    if IsMetadataKey(key) {
      if |segs| == 4 {
        IndexSegments(segs[1], segs[2]);
        SameSegments(key, IndexKey(segs[1], segs[2]));
        assert IsIndex(key, segs[1], segs[2]);
      } else {
        VersionIsSpelled(key, segs);
      }
    }
    if org, name :| IsIndex(key, org, name) { IndexSegments(org, name); }
    if org, name, version :| IsVersion(key, org, name, version) { MetadataKeyGrammar(key, org, name, version); }
  }

  lemma VersionIsSpelled(key: string, segs: seq<string>)
    requires segs == Text.Split(key, '/') && IsMetadataKey(key) && |segs| == 5
    ensures IsVersion(key, segs[1], segs[2], segs[4][..|segs[4]| - 5])
  {
    var version := segs[4][..|segs[4]| - 5];
    assert segs[4] == version + ".json";
    VersionKeySegments(segs[1], segs[2], version);
    SameSegments(key, VersionPrefixKey(segs[1], segs[2]) + version + ".json");
  }

  /** Metadata keys are plain text with single slashes inside. */
  lemma MetadataPlain(key: string)
    requires MetadataKey(key)
    ensures '%' !in key && '\\' !in key && '\0' !in key && !Text.HasDouble(key, '/')
    ensures key != "" && key[0] == 'm' && key[|key| - 1] == 'n'
  {
    if org, name :| IsIndex(key, org, name) {
      IndexPlain(org, name);
    } else {
      var org, name, version :| IsVersion(key, org, name, version);
      AbsentCharacters(org, name, version);
      VersionKeyDots(org, name, version);
    }
  }

  lemma IndexPlain(org: string, name: string)
    requires OrgName(org) && OrgName(name)
    ensures var key := IndexKey(org, name);
            && '%' !in key && '\\' !in key && '\0' !in key && !Text.HasDouble(key, '/')
            && key[0] == 'm' && key[|key| - 1] == 'n'
  {
    assert '/' !in org && '/' !in name;
    Text.AbsentNoDouble(org, '/');
    Text.AbsentNoDouble(name, '/');
    Text.DoubleConcat("metadata/", org, '/');
    Text.DoubleConcat("metadata/" + org, "/", '/');
    Text.DoubleConcat("metadata/" + org + "/", name, '/');
    Text.DoubleConcat("metadata/" + org + "/" + name, "/index.json", '/');
  }

  lemma MetadataReads(key: string)
    requires IsMetadataKey(key)
    ensures CdnReads("/" + key) == if |key| <= 512 && !Text.HasDouble(key, '.') then Some(key) else None
  {
    MetadataExactly(key);
    MetadataPlain(key);
    TrimPlain(key);
    var path := "/" + key;
    assert '%' !in path && '\\' !in path && '\0' !in path;
    assert |path| == |key| + 1;
    assert CanonicalCdnKey(path) == if |key| <= 512 && !Text.HasDouble(key, '.') then Some(key) else None;
    assert ParseCdnPath(path).None?;
  }

  /**
   * Under its own path the CDN reads exactly the artifacts, in both formats, and
   * the package indexes and version documents whose key has at most 512
   * characters and no two dots together.
   */
  lemma CdnReadsExactly(key: string)
    ensures CdnReads("/" + key) == Some(key) <==>
            ArtifactKey(key) || (MetadataKey(key) && |key| <= 512 && !Text.HasDouble(key, '.'))
  {
    ArtifactExactly(key);
    MetadataExactly(key);
    if IsMetadataKey(key) {
      MetadataReads(key);
      if IsArtifactKey(key) { MetadataPlain(key); }
    } else if digest, extension :|
      IsSha256(digest) && extension in {"tar.gz", "zip"} && key == "artifacts/" + digest + "." + extension
    {
      CdnReadsArtifact(digest, extension);
    }
  }
}
