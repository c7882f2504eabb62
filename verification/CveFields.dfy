/** What the checks on identities accept, in terms of how the strings are put together. */
module CveFields {
  import opened Wrappers
  import opened Text
  import opened CveModel

  /** No qualifiers or subpath begin in it. */
  predicate Unmarked(s: string) {
    '?' !in s && '#' !in s
  }

  function PurlParts(kind: string, name: string, version: string, extra: string): string {
    "pkg:" + ((kind + ("/" + name)) + ("@" + version) + extra)
  }

  /** A type, a name that may hold a namespace, a version, and qualifiers or a subpath. */
  ghost predicate IsPurl(purl: string, kind: string, name: string, version: string, extra: string) {
    && purl == PurlParts(kind, name, version, extra)
    && kind != "" && '/' !in kind && name != "" && version != "" && '@' !in version
    && Unmarked(kind) && Unmarked(name) && Unmarked(version)
    && (extra == "" || extra[0] == '?' || extra[0] == '#')
  }

  lemma MarkAt(package: string, extra: string)
    requires Unmarked(package) && (extra == "" || extra[0] == '?' || extra[0] == '#')
    ensures
      var end := FirstIndex(package + extra, c => c == '?' || c == '#');
      end == if extra == "" then None else Some(|package|)
  {
    var s := package + extra;
    assert forall i :: 0 <= i < |package| ==> s[i] == package[i] && s[i] != '?' && s[i] != '#';
    if extra != "" { assert s[|package|] == extra[0]; }
  }

  lemma VersionAt(coordinates: string, version: string)
    requires '@' !in version
    ensures LastIndex(coordinates + ("@" + version), c => c == '@') == Some(|coordinates|)
  {
    var s, n := coordinates + ("@" + version), |coordinates|;
    assert s[n] == '@';
    forall i | n < i < |s| ensures s[i] != '@' { assert s[i] == version[i - n - 1]; }
  }

  lemma KindAt(kind: string, name: string)
    requires '/' !in kind
    ensures FirstIndex(kind + ("/" + name), c => c == '/') == Some(|kind|)
  {
    var s := kind + ("/" + name);
    assert s[|kind|] == '/';
    assert forall i :: 0 <= i < |kind| ==> s[i] == kind[i] && s[i] != '/';
  }

  lemma UnmarkedPackage(kind: string, name: string, version: string)
    requires Unmarked(kind) && Unmarked(name) && Unmarked(version)
    ensures Unmarked((kind + ("/" + name)) + ("@" + version))
  {
  }

  lemma PurlIsValid(purl: string, kind: string, name: string, version: string, extra: string)
    requires IsPurl(purl, kind, name, version, extra)
    ensures ValidPurl(purl)
  {
    var coordinates := kind + ("/" + name);
    var package := coordinates + ("@" + version);
    assert purl[..4] == "pkg:" && purl[4..] == package + extra;
    UnmarkedPackage(kind, name, version);
    MarkAt(package, extra);
    assert (package + extra)[..|package|] == package;
    assert extra == "" ==> package + extra == package;
    VersionAt(coordinates, version);
    assert package[..|coordinates|] == coordinates && package[|coordinates| + 1..] == version;
    KindAt(kind, name);
  }

  lemma BeforeMark(body: string) returns (package: string, extra: string)
    ensures body == package + extra && Unmarked(package) && (extra == "" || extra[0] == '?' || extra[0] == '#')
    ensures
      var end := FirstIndex(body, c => c == '?' || c == '#');
      package == if end.Some? then body[..end.value] else body
  {
    var end := FirstIndex(body, c => c == '?' || c == '#');
    package := if end.Some? then body[..end.value] else body;
    extra := body[|package|..];
  }

  /** Before the last `@` the coordinates, after it the version. */
  lemma AroundVersion(package: string, at: nat)
    requires LastIndex(package, c => c == '@') == Some(at)
    ensures package == package[..at] + ("@" + package[at + 1..]) && '@' !in package[at + 1..]
  {
    var version := package[at + 1..];
    forall i | 0 <= i < |version| ensures version[i] != '@' { assert version[i] == package[at + 1 + i]; }
  }

  lemma AroundKind(coordinates: string, slash: nat)
    requires FirstIndex(coordinates, c => c == '/') == Some(slash)
    ensures coordinates == coordinates[..slash] + ("/" + coordinates[slash + 1..]) && '/' !in coordinates[..slash]
  {
  }

  lemma UnmarkedTwo(a: string, c: char, b: string)
    requires Unmarked(a + ([c] + b))
    ensures Unmarked(a) && Unmarked(b)
  {
    var s := a + ([c] + b);
    forall x | x in a ensures x in s { }
    forall x | x in b ensures x in s {
      var i :| 0 <= i < |b| && b[i] == x;
      assert s[|a| + 1 + i] == x;
    }
  }

  /** The parts of a package URL without prefix and extras. */
  lemma PackageParts(package: string, at: nat, slash: nat) returns (kind: string, name: string, version: string)
    requires Unmarked(package) && LastIndex(package, c => c == '@') == Some(at) && at + 1 < |package|
    requires FirstIndex(package[..at], c => c == '/') == Some(slash) && 0 < slash && slash + 1 < at
    ensures package == (kind + ("/" + name)) + ("@" + version)
    ensures kind != "" && '/' !in kind && name != "" && version != "" && '@' !in version
    ensures Unmarked(kind) && Unmarked(name) && Unmarked(version)
  {
    var coordinates := package[..at];
    kind, name, version := coordinates[..slash], coordinates[slash + 1..], package[at + 1..];
    AroundVersion(package, at);
    AroundKind(coordinates, slash);
    UnmarkedTwo(coordinates, '@', version);
    UnmarkedTwo(kind, '/', name);
  }

  lemma ValidIsPurl(purl: string) returns (kind: string, name: string, version: string, extra: string)
    requires ValidPurl(purl)
    ensures IsPurl(purl, kind, name, version, extra)
  {
    var package;
    package, extra := BeforeMark(purl[4..]);
    var at := LastIndex(package, c => c == '@').value;
    var slash := FirstIndex(package[..at], c => c == '/').value;
    kind, name, version := PackageParts(package, at, slash);
    assert purl == purl[..4] + purl[4..];
  }

  /** The accepted package URLs are the strings built of these parts. */
  lemma PurlIff(purl: string)
    ensures ValidPurl(purl) <==> exists kind, name, version, extra :: IsPurl(purl, kind, name, version, extra)
  {
    if ValidPurl(purl) { var kind, name, version, extra := ValidIsPurl(purl); }
    if kind, name, version, extra :| IsPurl(purl, kind, name, version, extra) { PurlIsValid(purl, kind, name, version, extra); }
  }

  predicate Explicit(field: string) {
    field != "" && field != "*" && field != "-"
  }

  /** Thirteen fields joined by colons: the prefix, the version of the format, the part, then
      vendor, product and version, which must be explicit, and seven more. */
  ghost predicate IsCpe(cpe: string, fields: seq<string>) {
    && |fields| == 13 && (forall f :: f in fields ==> ':' !in f) && JoinWith(fields, ':') == cpe
    && fields[0] == "cpe" && fields[1] == "2.3"
    && Explicit(fields[3]) && Explicit(fields[4]) && Explicit(fields[5])
  }

  lemma CpeIff(cpe: string)
    ensures ValidCpe(cpe) <==> exists fields :: IsCpe(cpe, fields)
  {
    if ValidCpe(cpe) {
      SplitIff(cpe, ':', Split(cpe, ':'));
      assert IsCpe(cpe, Split(cpe, ':'));
    }
    if fields :| IsCpe(cpe, fields) { SplitIff(cpe, ':', fields); }
  }

  /** The characters Unicode calls white space. */
  const WHITE_SPACE: string :=
    " \t\n\U{000B}\U{000C}\r\U{0085}\U{00A0}\U{1680}\U{2000}\U{2001}\U{2002}\U{2003}\U{2004}\U{2005}\U{2006}\U{2007}" +
    "\U{2008}\U{2009}\U{200A}\U{2028}\U{2029}\U{202F}\U{205F}\U{3000}"

  /** Something other than white space. */
  ghost predicate Says(s: string) {
    exists c :: c in s && c !in WHITE_SPACE
  }

  lemma WhiteSpaceIff(c: char)
    ensures IsWhitespace(c) <==> c in WHITE_SPACE
  {
  }

  lemma SaysIff(s: string)
    ensures Says(s) <==> !Blank(s)
  {
    forall c | c in s ensures IsWhitespace(c) <==> c in WHITE_SPACE { WhiteSpaceIff(c); }
  }

  lemma CommitIff(repository: string, commit: string)
    ensures ValidCommit(repository, commit) <==>
      Says(repository) && |commit| > 6 && forall c :: c in commit ==> c in "0123456789abcdefABCDEF"
  {
    SaysIff(repository);
    assert forall c: char :: IsHexDigit(c) <==> c in "0123456789abcdefABCDEF";
  }

  /** A package is valid if and only if it has a name, a version and some identity, and every
      identity it lists could be the target of an advisory. */
  lemma PackageIff(p: PackageIdentity)
    ensures ValidPackage(p) <==>
      && Says(p.name) && Says(p.version)
      && (exists m :: HasIdentity(p, m)) && (forall m :: HasIdentity(p, m) ==> ValidTarget(m))
  {
    SaysIff(p.name);
    SaysIff(p.version);
    SomeIdentity(p);
    AllValid(p);
  }

  lemma SomeIdentity(p: PackageIdentity)
    ensures (exists m :: HasIdentity(p, m)) <==> p.purls != [] || p.cpes != [] || p.commits != [] || p.nixpkgs.Some?
  {
    if p.purls != [] { assert HasIdentity(p, Purl(p.purls[0])); }
    if p.cpes != [] { assert HasIdentity(p, Cpe(p.cpes[0])); }
    if p.commits != [] { assert HasIdentity(p, Commit(p.commits[0].repository, p.commits[0].commit)); }
    if p.nixpkgs.Some? { assert HasIdentity(p, Nixpkgs(p.nixpkgs.value.attribute, p.nixpkgs.value.version)); }
  }

  lemma AllValid(p: PackageIdentity)
    ensures (forall m :: HasIdentity(p, m) ==> ValidTarget(m)) <==>
      && (forall s :: s in p.purls ==> ValidPurl(s)) && (forall s :: s in p.cpes ==> ValidCpe(s))
      && (forall c :: c in p.commits ==> ValidCommit(c.repository, c.commit))
      && (p.nixpkgs.Some? ==> !Blank(p.nixpkgs.value.attribute) && !Blank(p.nixpkgs.value.version))
  {
    if forall m :: HasIdentity(p, m) ==> ValidTarget(m) {
      forall s | s in p.purls ensures ValidPurl(s) { assert HasIdentity(p, Purl(s)); }
      forall s | s in p.cpes ensures ValidCpe(s) { assert HasIdentity(p, Cpe(s)); }
      forall c | c in p.commits ensures ValidCommit(c.repository, c.commit) { assert HasIdentity(p, Commit(c.repository, c.commit)); }
      if p.nixpkgs.Some? { assert HasIdentity(p, Nixpkgs(p.nixpkgs.value.attribute, p.nixpkgs.value.version)); }
    }
  }

  /** What the evidence for an identity must not leave blank. */
  ghost predicate Cites(e: IdentityEvidence, s: string) {
    || (e.NixpkgsMetadata? && (s == e.revision || s == e.attribute))
    || (e.ArtifactSbom? && (s == e.digest || s == e.format))
    || (e.ArtifactMetadata? && (s == e.path || s == e.digest))
  }

  lemma EvidenceIff(e: IdentityEvidence)
    ensures ValidEvidence(e) <==> forall s :: Cites(e, s) ==> Says(s)
  {
    forall s | Cites(e, s) ensures Says(s) <==> !Blank(s) { SaysIff(s); }
    match e
    case NixpkgsMetadata(revision, attribute) =>
      assert Cites(e, revision) && Cites(e, attribute);
    case ArtifactSbom(digest, format) =>
      assert Cites(e, digest) && Cites(e, format);
    case ArtifactMetadata(path, digest, _) =>
      assert Cites(e, path) && Cites(e, digest);
  }

  /** The evidence a component rests on. */
  ghost predicate RestsOn(identity: ComponentIdentity, e: IdentityEvidence) {
    || (identity.NonPackage? && identity.evidence == e)
    || (identity.Identified? && exists i :: i in identity.packages && i.evidence == e)
  }

  /** An identity is valid if and only if all its evidence and all its packages are, and unless
      it is unknown it has some evidence and, for what is no package, a reason. */
  lemma IdentityIff(identity: ComponentIdentity)
    ensures ValidIdentity(identity) <==>
      && (forall e :: RestsOn(identity, e) ==> ValidEvidence(e))
      && (identity.Identified? ==> forall i :: i in identity.packages ==> ValidPackage(i.package))
      && (identity.NonPackage? ==> Says(identity.reason))
      && (!identity.Unknown? ==> exists e :: RestsOn(identity, e))
  {
    match identity
    case Identified(packages) =>
      forall i | i in packages ensures RestsOn(identity, i.evidence) {}
      if packages != [] { assert packages[0] in packages; }
    case NonPackage(reason, evidence) =>
      assert RestsOn(identity, evidence);
      SaysIff(reason);
    case Unknown(_) =>
  }
}
