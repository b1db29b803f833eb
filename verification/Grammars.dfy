/**
 * The patterns behind the names that are accepted, written as the source writes
 * them: a first character, characters of a class, and a range of lengths.
 */
module Grammars {
  import Routes
  import EdgeCapability
  import EdgePlanning
  import PackagistCatalog
  import CranDescription
  import NativeUrls
  import Text

  const UPPER := "ABCDEFGHIJKLMNOPQRSTUVWXYZ"
  const LOWER := "abcdefghijklmnopqrstuvwxyz"
  const DIGIT := "0123456789"

  /** `[first][rest]{min-1,max-1}` */
  predicate Shaped(s: string, first: string, rest: string, min: nat, max: nat) {
    && min <= |s| <= max && s != "" && s[0] in first && forall i | 1 <= i < |s| :: s[i] in rest
  }

  lemma UpperCase(c: char)
    ensures c in UPPER <==> 'A' <= c <= 'Z'
  {
    if 'A' <= c <= 'Z' { assert UPPER[c as int - 65] == c; }
  }

  lemma LowerCase(c: char)
    ensures c in LOWER <==> 'a' <= c <= 'z'
  {
    if 'a' <= c <= 'z' { assert LOWER[c as int - 97] == c; }
  }

  lemma DigitCase(c: char)
    ensures c in DIGIT <==> '0' <= c <= '9'
  {
    if '0' <= c <= '9' { assert DIGIT[c as int - 48] == c; }
  }

  lemma Letter(c: char)
    ensures c in UPPER + LOWER + DIGIT <==> Routes.AlnumChar(c)
    ensures c in LOWER + DIGIT <==> Routes.LowerDigit(c)
  {
    UpperCase(c);
    LowerCase(c);
    DigitCase(c);
  }

  // ----- capabilities -----

  lemma JtiShape(s: string)
    ensures EdgeCapability.Jti(s) <==> Shaped(s, UPPER + LOWER + DIGIT, UPPER + LOWER + DIGIT + "._:-", 8, 192)
  {
    forall c: char { Letter(c); }
  }

  lemma LineageShape(s: string)
    ensures EdgeCapability.LineageId(s) <==> Shaped(s, UPPER + LOWER + DIGIT, UPPER + LOWER + DIGIT + ":._/-", 1, 256)
  {
    forall c: char { Letter(c); }
  }

  lemma CredentialRefShape(s: string)
    ensures EdgeCapability.CredentialRef(s) <==> Shaped(s, UPPER + LOWER + DIGIT, UPPER + LOWER + DIGIT + ":._/-", 1, 192)
  {
    forall c: char { Letter(c); }
  }

  lemma CrateShape(s: string)
    ensures EdgeCapability.CargoCrate(s) <==> Shaped(s, UPPER + LOWER + DIGIT, UPPER + LOWER + DIGIT + "_-", 1, 128)
  {
    forall c: char { Letter(c); }
  }

  /** Two parts around the only slash. */
  predicate Halves(s: string, a: string, b: string) { '/' !in a && '/' !in b && s == a + "/" + b }

  lemma HalvesExactly(s: string, a: string, b: string)
    ensures Halves(s, a, b) <==> Text.Split(s, '/') == [a, b]
  {
    if Halves(s, a, b) {
      Text.SplitAtom(b, '/');
      Text.SplitOnto(a, b);
    }
    if Text.Split(s, '/') == [a, b] {
      Text.SplitParts(s, '/');
      assert a in [a, b] && b in [a, b];
      Text.JoinSplit(s, '/');
      Text.JoinCons(a, [b], "/");
      assert [a] + [b] == [a, b];
    }
  }

  predicate AllIn(s: string, alphabet: string) { s != "" && forall i | 0 <= i < |s| :: s[i] in alphabet }

  lemma RepositoryShape(s: string)
    ensures EdgeCapability.GithubRepository(s) <==>
            exists a, b :: Halves(s, a, b) && AllIn(a, UPPER + LOWER + DIGIT + "_.-") && AllIn(b, UPPER + LOWER + DIGIT + "_.-")
  {
    forall c: char { Letter(c); }
    forall a, b | Halves(s, a, b) ensures Text.Split(s, '/') == [a, b] { HalvesExactly(s, a, b); }
    if EdgeCapability.GithubRepository(s) {
      var parts := Text.Split(s, '/');
      HalvesExactly(s, parts[0], parts[1]);
    }
  }

  lemma ScopedShape(s: string)
    ensures EdgeCapability.NpmScopedPackage(s) <==>
            exists a, b :: Halves(s, "@" + a, b) && Scoped(a) && Scoped(b)
  {
    forall a, b | Halves(s, "@" + a, b) && Scoped(a) && Scoped(b) ensures EdgeCapability.NpmScopedPackage(s) {
      HalvesExactly(s, "@" + a, b);
      assert ("@" + a)[1..] == a;
      ScopedPartShape(a);
      ScopedPartShape(b);
    }
    if EdgeCapability.NpmScopedPackage(s) {
      var parts := Text.Split(s, '/');
      assert parts[0] == "@" + parts[0][1..];
      HalvesExactly(s, "@" + parts[0][1..], parts[1]);
      ScopedPartShape(parts[0][1..]);
      ScopedPartShape(parts[1]);
    }
  }

  predicate Scoped(s: string) { Shaped(s, LOWER + DIGIT, LOWER + DIGIT + "._-", 1, |s|) }

  lemma ScopedPartShape(s: string)
    ensures EdgeCapability.ScopedPart(s) <==> Scoped(s)
  {
    forall i | 0 <= i < |s|
      ensures s[i] in LOWER + DIGIT + "._-" <==> Routes.LowerDigit(s[i]) || s[i] in "._-"
      ensures s[i] in LOWER + DIGIT <==> Routes.LowerDigit(s[i])
    {
      Letter(s[i]);
    }
  }

  // ----- names and versions in paths -----

  lemma VersionShape(s: string)
    ensures Routes.VersionGrammar(s, 128) <==> Shaped(s, UPPER + LOWER + DIGIT, UPPER + LOWER + DIGIT + ".+-", 1, 128)
  {
    forall c: char { Letter(c); }
  }

  lemma OrgShape(s: string)
    ensures Routes.OrgName(s) <==> Shaped(s, LOWER + DIGIT, LOWER + DIGIT + "-", 1, |s|)
  {
    forall c: char { Letter(c); }
  }

  /** Letters and digits with single hyphens between them. */
  predicate Hyphenated(s: string) {
    && AllIn(s, LOWER + DIGIT + "-") && s[0] != '-' && s[|s| - 1] != '-' && !Text.HasDouble(s, '-')
  }

  lemma SlugShape(s: string)
    ensures Routes.IsSlug(s) <==> |s| <= 128 && Hyphenated(s)
  {
    forall c: char { Letter(c); }
    HyphenParts(s);
    if Routes.IsSlug(s) { Routes.SlugIsChars(s); }
  }

  predicate PlainPart(p: string) { p != "" && forall c | c in p :: Routes.LowerDigit(c) }

  /** The parts of what follows a letter: the first may be empty. */
  predicate OpenParts(parts: seq<string>)
    requires parts != []
  {
    (forall c | c in parts[0] :: Routes.LowerDigit(c)) && forall i | 1 <= i < |parts| :: PlainPart(parts[i])
  }

  /** Letters, digits and hyphens, no two hyphens together and none at the end. */
  predicate Trailing(s: string) {
    && (forall i | 0 <= i < |s| :: Routes.LowerDigit(s[i]) || s[i] == '-')
    && (s != "" ==> s[|s| - 1] != '-') && !Text.HasDouble(s, '-')
  }

  lemma OpenMore(rest: seq<string>)
    requires rest != []
    ensures OpenParts([""] + rest) <==> OpenParts(rest) && rest[0] != ""
  {
    var parts := [""] + rest;
    assert forall i | 1 <= i < |parts| :: parts[i] == rest[i - 1];
    if OpenParts(parts) {
      assert PlainPart(parts[1]);
      forall i | 1 <= i < |rest| ensures PlainPart(rest[i]) { assert PlainPart(parts[i + 1]); }
    }
    if OpenParts(rest) && rest[0] != "" {
      forall i | 1 <= i < |parts| ensures PlainPart(parts[i]) {
        if i > 1 { assert PlainPart(rest[i - 1]); }
      }
    }
  }

  lemma OpenLonger(c: char, rest: seq<string>)
    requires rest != []
    ensures OpenParts([[c] + rest[0]] + rest[1..]) <==> Routes.LowerDigit(c) && OpenParts(rest)
  {
    var parts := [[c] + rest[0]] + rest[1..];
    assert forall i | 1 <= i < |parts| :: parts[i] == rest[i];
    assert parts[0] == [c] + rest[0];
    assert c in parts[0];
    assert forall d | d in rest[0] :: d in parts[0];
  }

  lemma TrailingStep(c: char, t: string)
    ensures Trailing([c] + t) <==>
            && (Routes.LowerDigit(c) || c == '-') && Trailing(t)
            && (c == '-' ==> t != "" && t[0] != '-')
  {
    var s := [c] + t;
    Text.DoubleConcat([c], t, '-');
    assert forall i | 1 <= i < |s| :: s[i] == t[i - 1];
    if Trailing(s) {
      forall i | 0 <= i < |t| ensures Routes.LowerDigit(t[i]) || t[i] == '-' { assert t[i] == s[i + 1]; }
      assert s[0] == c && (t != "" ==> s[|s| - 1] == t[|t| - 1]);
    }
    if (Routes.LowerDigit(c) || c == '-') && Trailing(t) && (c == '-' ==> t != "" && t[0] != '-') {
      forall i | 0 <= i < |s| ensures Routes.LowerDigit(s[i]) || s[i] == '-' {
        if i > 0 { assert s[i] == t[i - 1]; }
      }
      assert s[|s| - 1] == if t == "" then c else t[|t| - 1];
    }
  }

  lemma {:induction false} HyphenTail(s: string)
    ensures OpenParts(Text.Split(s, '-')) <==> Trailing(s)
  {
    if s != "" {
      HyphenTail(s[1..]);
      TrailingStep(s[0], s[1..]);
      assert s == [s[0]] + s[1..];
      var rest := Text.Split(s[1..], '-');
      assert rest[0] != "" <==> s[1..] != "" && s[1..][0] != '-';
      if s[0] == '-' { OpenMore(rest); } else { OpenLonger(s[0], rest); }
    }
  }

  lemma HyphenParts(s: string)
    ensures (forall p | p in Text.Split(s, '-') :: PlainPart(p)) <==>
            && s != "" && (forall i | 0 <= i < |s| :: Routes.LowerDigit(s[i]) || s[i] == '-')
            && s[0] != '-' && s[|s| - 1] != '-' && !Text.HasDouble(s, '-')
  {
    var parts := Text.Split(s, '-');
    HyphenTail(s);
    assert parts[0] != "" <==> s != "" && s[0] != '-';
    assert (forall p | p in parts :: PlainPart(p)) <==> OpenParts(parts) && parts[0] != "" by {
      if OpenParts(parts) && parts[0] != "" {
        forall p | p in parts ensures PlainPart(p) {
          var i :| 0 <= i < |parts| && parts[i] == p;
        }
      }
      if forall p | p in parts :: PlainPart(p) { assert parts[0] in parts; }
    }
  }

  lemma PackageShape(s: string)
    ensures EdgeCapability.PackageCoordinate(s) <==>
            |s| <= 257 && exists a, b :: Halves(s, a, b) && |a| <= 128 && |b| <= 128 && Hyphenated(a) && Hyphenated(b)
  {
    if |s| <= 257 && exists a, b :: Halves(s, a, b) && |a| <= 128 && |b| <= 128 && Hyphenated(a) && Hyphenated(b) {
      var a, b :| Halves(s, a, b) && |a| <= 128 && |b| <= 128 && Hyphenated(a) && Hyphenated(b);
      HalvesExactly(s, a, b);
      SlugShape(a);
      SlugShape(b);
    }
    if EdgeCapability.PackageCoordinate(s) {
      var parts := Text.Split(s, '/');
      HalvesExactly(s, parts[0], parts[1]);
      SlugShape(parts[0]);
      SlugShape(parts[1]);
    }
  }

  // ----- package registries -----

  lemma NativeVersionShape(s: string)
    ensures NativeUrls.SafeNativeVersion(s) <==>
            Shaped(s, UPPER + LOWER + DIGIT, UPPER + LOWER + DIGIT + ".!_+~-", 1, 128) && !Text.HasDouble(s, '.')
    ensures CranDescription.SafeVersion(s) <==> NativeUrls.SafeNativeVersion(s)
  {
    forall c: char { Letter(c); }
  }

  lemma CranNameShape(s: string)
    ensures CranDescription.SafeSimple(s) <==>
            Shaped(s, UPPER + LOWER + DIGIT, UPPER + LOWER + DIGIT + "._+-", 1, 192) && !Text.HasDouble(s, '.')
  {
    forall c: char { Letter(c); }
  }

  lemma PackagistShape(s: string)
    ensures PackagistCatalog.SafeComponent(s) <==>
            Shaped(s, UPPER + LOWER + DIGIT, UPPER + LOWER + DIGIT + "._-", 1, 192)
    ensures PackagistCatalog.SafeGithubPart(s) <==>
            Shaped(s, UPPER + LOWER + DIGIT, UPPER + LOWER + DIGIT + "._-", 1, 100) && !Text.HasDouble(s, '.')
    ensures PackagistCatalog.SafeVersion(s) <==>
            && NativeUrls.SafeNativeVersion(s)
            && !("dev-" <= Text.Lower(s)) && !Text.EndsWith(Text.Lower(s), "-dev")
  {
    forall c: char { Letter(c); }
  }

  /** A Packagist coordinate is two components around its only slash, without `..`. */
  lemma CoordinateShape(s: string)
    ensures PackagistCatalog.ValidCoordinate(s) <==>
            !Text.HasDouble(s, '.') && exists a, b :: Halves(s, a, b) && Component(a) && Component(b)
  {
    if PackagistCatalog.ValidCoordinate(s) {
      var parts := Text.Split(s, '/');
      HalvesExactly(s, parts[0], parts[1]);
      PackagistShape(parts[0]);
      PackagistShape(parts[1]);
    }
    if a, b :| Halves(s, a, b) && Component(a) && Component(b) {
      HalvesExactly(s, a, b);
      PackagistShape(a);
      PackagistShape(b);
      assert '\\' !in a && '\\' !in b;
    }
  }

  predicate Component(s: string) { Shaped(s, UPPER + LOWER + DIGIT, UPPER + LOWER + DIGIT + "._-", 1, 192) }

  lemma ReferenceShape(s: string)
    ensures PackagistCatalog.GitReference(s) <==> |s| in {40, 64} && AllIn(s, DIGIT + "abcdef")
  {
    forall c: char ensures c in DIGIT + "abcdef" <==> Routes.Hex(c) { DigitCase(c); }
  }

  /** The host of a module: lower-case letters, digits, dots and hyphens, a letter
      or digit at both ends, and a dot somewhere. */
  predicate HostLike(s: string) {
    && AllIn(s, LOWER + DIGIT + ".-") && s[0] in LOWER + DIGIT && s[|s| - 1] in LOWER + DIGIT
    && exists i :: 0 <= i < |s| && s[i] == '.'
  }

  lemma HostShape(s: string)
    ensures NativeUrls.GoFirstSegment(s) <==> HostLike(s)
  {
    forall i | 0 <= i < |s|
      ensures s[i] in LOWER + DIGIT + ".-" <==> Routes.LowerDigit(s[i]) || s[i] in ".-"
      ensures s[i] in LOWER + DIGIT <==> Routes.LowerDigit(s[i])
    {
      Letter(s[i]);
    }
  }

  lemma ModulePartShape(s: string)
    ensures NativeUrls.GoPathSegment(s) <==> AllIn(s, UPPER + LOWER + DIGIT + "._~-")
  {
    forall i | 0 <= i < |s|
      ensures s[i] in UPPER + LOWER + DIGIT + "._~-" <==> Routes.AlnumChar(s[i]) || s[i] in "._~-"
    {
      Letter(s[i]);
    }
  }

  /** Two to 32 parts between slashes, a host first. */
  ghost predicate Module(s: string, parts: seq<string>) {
    && 2 <= |parts| <= 32 && s == Text.Join(parts, "/") && HostLike(parts[0])
    && forall i | 1 <= i < |parts| :: AllIn(parts[i], UPPER + LOWER + DIGIT + "._~-")
  }

  lemma PartPlain(p: string)
    requires HostLike(p) || AllIn(p, UPPER + LOWER + DIGIT + "._~-")
    ensures '/' !in p && '!' !in p && '\\' !in p
  {
    forall i | 0 <= i < |p| ensures p[i] != '/' && p[i] != '!' && p[i] != '\\' {
      Letter(p[i]);
    }
  }

  lemma {:induction false} JoinedWithout(parts: seq<string>, c: char)
    requires c != '/' && forall p | p in parts :: c !in p
    ensures c !in Text.Join(parts, "/")
  {
    if |parts| > 1 { JoinedWithout(parts[1..], c); }
  }

  lemma ModuleShape(s: string)
    ensures NativeUrls.GoModulePath(s) <==> exists parts :: Module(s, parts)
  {
    if NativeUrls.GoModulePath(s) {
      var parts := Text.Split(s, '/');
      Text.JoinSplit(s, '/');
      HostShape(parts[0]);
      forall i | 1 <= i < |parts| ensures AllIn(parts[i], UPPER + LOWER + DIGIT + "._~-") {
        assert NativeUrls.GoPathSegment(parts[i]);
        ModulePartShape(parts[i]);
      }
      assert Module(s, parts);
    }
    if parts :| Module(s, parts) {
      forall p | p in parts ensures '/' !in p && '!' !in p && '\\' !in p {
        var i :| 0 <= i < |parts| && parts[i] == p;
        PartPlain(p);
      }
      Text.SplitJoin(parts, '/');
      JoinedWithout(parts, '!');
      JoinedWithout(parts, '\\');
      HostShape(parts[0]);
      forall i | 1 <= i < |parts| ensures NativeUrls.GoPathSegment(parts[i]) { ModulePartShape(parts[i]); }
    }
  }

  /** A version that starts with `v`, of letters, digits and `.+~-`, without `..`. */
  lemma GoVersionShape(s: string)
    ensures NativeUrls.GoVersion(s) <==>
            && 2 <= |s| <= 128 && s[0] == 'v' && AllIn(s[1..], UPPER + LOWER + DIGIT + ".+~-") && !Text.HasDouble(s, '.')
  {
    forall i | 0 <= i < |s|
      ensures s[i] in UPPER + LOWER + DIGIT + ".+~-" <==> Routes.AlnumChar(s[i]) || s[i] in ".+~-"
    {
      Letter(s[i]);
    }
    assert forall i | 1 <= i < |s| :: s[1..][i - 1] == s[i];
    assert NativeUrls.GoVersion(s) ==> forall i | 0 <= i < |s[1..]| :: s[1..][i] == s[i + 1];
  }
}
