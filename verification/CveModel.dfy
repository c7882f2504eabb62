/** The scanner's inputs: package identities, advisories and VEX statements, with the checks
    each goes through before it is used. */
module CveModel {
  import opened Wrappers
  import opened Text

  /** An exact identity: what an advisory targets, and what a package matched on. */
  datatype MatchedIdentity =
    | Purl(purl: string)
    | Cpe(cpe: string)
    | Commit(repository: string, commit: string)
    | Nixpkgs(attribute: string, version: string)

  datatype CommitIdentity = CommitIdentity(repository: string, commit: string)

  datatype NixpkgsIdentity = NixpkgsIdentity(
    attribute: string, version: string, output: string, knownVulnerabilities: seq<string>)

  datatype PackageIdentity = PackageIdentity(
    name: string,
    version: string,
    purls: seq<string>,
    cpes: seq<string>,
    commits: seq<CommitIdentity>,
    nixpkgs: Option<NixpkgsIdentity>)

  datatype IdentityEvidence =
    | NixpkgsMetadata(revision: string, attribute: string)
    | ArtifactSbom(digest: string, format: string)
    | ArtifactMetadata(path: string, digest: string, extractor: string)

  datatype EvidencedPackage = EvidencedPackage(package: PackageIdentity, evidence: IdentityEvidence)

  datatype UnknownReason = MissingMetadata | InvalidEvidence | AmbiguousIdentity | UnsupportedArtifact

  datatype ComponentIdentity =
    | Identified(packages: seq<EvidencedPackage>)
    | NonPackage(reason: string, evidence: IdentityEvidence)
    | Unknown(why: UnknownReason)

  type IdentityCatalog = map<string, ComponentIdentity>

  datatype Advisory = Advisory(
    id: string,
    aliases: seq<string>,
    severity: Option<real>,
    summary: Option<string>,
    targets: seq<MatchedIdentity>)

  datatype Snapshot = Snapshot(id: string, modified: string, advisories: seq<Advisory>)

  // --- field checks ---

  predicate ValidPurl(purl: string) {
    StartsWith(purl, "pkg:") &&
    var body := purl[4..];
    var end := FirstIndex(body, c => c == '?' || c == '#');
    var package := if end.Some? then body[..end.value] else body;
    var at := LastIndex(package, c => c == '@');
    at.Some? &&
    var coordinates, version := package[..at.value], package[at.value + 1..];
    var slash := FirstIndex(coordinates, c => c == '/');
    slash.Some? && slash.value > 0 && slash.value + 1 < |coordinates| && version != ""
  }

  predicate ValidCpe(cpe: string) {
    var fields := Split(cpe, ':');
    && |fields| == 13 && fields[0] == "cpe" && fields[1] == "2.3"
    && forall i :: 3 <= i <= 5 ==> fields[i] != "" && fields[i] != "*" && fields[i] != "-"
  }

  predicate IsHexDigit(c: char) {
    '0' <= c <= '9' || 'a' <= c <= 'f' || 'A' <= c <= 'F'
  }

  predicate ValidCommit(repository: string, commit: string) {
    !Blank(repository) && |commit| >= 7 && forall i :: 0 <= i < |commit| ==> IsHexDigit(commit[i])
  }

  predicate ValidTarget(target: MatchedIdentity) {
    match target
    case Purl(p) => ValidPurl(p)
    case Cpe(c) => ValidCpe(c)
    case Commit(r, c) => ValidCommit(r, c)
    case Nixpkgs(a, v) => !Blank(a) && !Blank(v)
  }

  predicate ValidPackage(p: PackageIdentity) {
    && !Blank(p.name) && !Blank(p.version)
    && (p.purls != [] || p.cpes != [] || p.commits != [] || p.nixpkgs.Some?)
    && (forall s :: s in p.purls ==> ValidPurl(s))
    && (forall s :: s in p.cpes ==> ValidCpe(s))
    && (forall c :: c in p.commits ==> ValidCommit(c.repository, c.commit))
    && (p.nixpkgs.Some? ==> !Blank(p.nixpkgs.value.attribute) && !Blank(p.nixpkgs.value.version))
  }

  predicate ValidEvidence(e: IdentityEvidence) {
    match e
    case NixpkgsMetadata(revision, attribute) => !Blank(revision) && !Blank(attribute)
    case ArtifactSbom(digest, format) => !Blank(digest) && !Blank(format)
    case ArtifactMetadata(path, digest, _) => !Blank(path) && !Blank(digest)
  }

  predicate ValidIdentity(identity: ComponentIdentity) {
    match identity
    case Identified(packages) =>
      packages != [] && forall i :: i in packages ==> ValidEvidence(i.evidence) && ValidPackage(i.package)
    case NonPackage(reason, evidence) => !Blank(reason) && ValidEvidence(evidence)
    case Unknown(_) => true
  }

  /** What the scan takes a component to be: invalid or missing evidence makes it unknown. */
  function EffectiveIdentity(identities: IdentityCatalog, path: string): ComponentIdentity {
    if path !in identities then Unknown(MissingMetadata)
    else if !ValidIdentity(identities[path]) then Unknown(InvalidEvidence)
    else identities[path]
  }

  /** `matches`: the identity a package shares with an advisory target. */
  function Matches(package: PackageIdentity, target: MatchedIdentity): Option<MatchedIdentity> {
    match target
    case Purl(purl) => if purl in package.purls then Some(target) else None
    case Cpe(cpe) => if cpe in package.cpes then Some(target) else None
    case Commit(r, c) => if CommitIdentity(r, c) in package.commits then Some(target) else None
    case Nixpkgs(a, v) =>
      if package.nixpkgs.Some? && package.nixpkgs.value.attribute == a && package.nixpkgs.value.version == v
      then Some(target) else None
  }

  /** The package lists this identity. */
  ghost predicate HasIdentity(p: PackageIdentity, m: MatchedIdentity) {
    || (m.Purl? && m.purl in p.purls)
    || (m.Cpe? && m.cpe in p.cpes)
    || (m.Commit? && exists c :: c in p.commits && c.repository == m.repository && c.commit == m.commit)
    || (m.Nixpkgs? && p.nixpkgs.Some? && p.nixpkgs.value.attribute == m.attribute && p.nixpkgs.value.version == m.version)
  }

  /** A target matches if and only if the package lists it, and the match is the target. */
  lemma MatchesIff(p: PackageIdentity, target: MatchedIdentity, m: MatchedIdentity)
    ensures Matches(p, target) == Some(m) <==> m == target && HasIdentity(p, target)
  {
    if target.Commit? {
      assert forall c: CommitIdentity ::
        c == CommitIdentity(target.repository, target.commit) <==> c.repository == target.repository && c.commit == target.commit;
    }
  }

  // --- advisory snapshots ---

  datatype SnapshotError = MissingMetadataFields | DuplicateAdvisory(id: string) | NoTargets(id: string) | BadTarget(id: string)

  predicate ValidAdvisory(a: Advisory) {
    a.targets != [] && forall t :: t in a.targets ==> ValidTarget(t)
  }

  ghost predicate ValidSnapshot(s: Snapshot) {
    && !Blank(s.id) && !Blank(s.modified)
    && (forall i :: 0 <= i < |s.advisories| ==> ValidAdvisory(s.advisories[i]))
    && (forall i, j :: 0 <= i < j < |s.advisories| ==> s.advisories[i].id != s.advisories[j].id)
  }

  /** What each refusal of an advisory reports is true of it. */
  ghost predicate AdvisoryDefect(a: Advisory, e: SnapshotError) {
    || (e == NoTargets(a.id) && a.targets == [])
    || (e == BadTarget(a.id) && exists t :: t in a.targets && !ValidTarget(t))
  }

  ghost predicate SnapshotDefect(s: Snapshot, e: SnapshotError) {
    match e
    case MissingMetadataFields => Blank(s.id) || Blank(s.modified)
    case DuplicateAdvisory(id) => exists i, j :: 0 <= i < j < |s.advisories| && s.advisories[i].id == id && s.advisories[j].id == id
    case _ => exists a :: a in s.advisories && AdvisoryDefect(a, e)
  }

  method ValidateAdvisory(a: Advisory) returns (r: Result<(), SnapshotError>)
    ensures r.Ok? <==> ValidAdvisory(a)
    ensures r.Err? ==> AdvisoryDefect(a, r.error)
  {
    if a.targets == [] { return Err(NoTargets(a.id)); }
    for k := 0 to |a.targets|
      invariant forall j :: 0 <= j < k ==> ValidTarget(a.targets[j])
    {
      if !ValidTarget(a.targets[k]) { return Err(BadTarget(a.id)); }
    }
    return Ok(());
  }

  /** `validate_snapshot`: accepts exactly the snapshots whose advisories have distinct ids and
      well-formed targets. */
  method ValidateSnapshot(s: Snapshot) returns (r: Result<(), SnapshotError>)
    ensures r.Ok? <==> ValidSnapshot(s)
    ensures r.Err? ==> SnapshotDefect(s, r.error)
  {
    if Blank(s.id) || Blank(s.modified) { return Err(MissingMetadataFields); }
    var ids: set<string> := {};
    for i := 0 to |s.advisories|
      invariant forall j :: 0 <= j < i ==> ValidAdvisory(s.advisories[j])
      invariant forall id :: id in ids <==> exists j :: 0 <= j < i && s.advisories[j].id == id
      invariant forall j, k :: 0 <= j < k < i ==> s.advisories[j].id != s.advisories[k].id
    {
      if s.advisories[i].id in ids { return Err(DuplicateAdvisory(s.advisories[i].id)); }
      ids := ids + {s.advisories[i].id};
      r := ValidateAdvisory(s.advisories[i]);
      if r.Err? { return; }
    }
    return Ok(());
  }

  // --- VEX ---

  datatype VexStatus = Affected | NotAffected | Fixed | UnderInvestigation

  datatype VexStatement = VexStatement(
    id: string,
    rootBomRef: string,
    component: MatchedIdentity,
    advisory: string,
    status: VexStatus,
    justification: string,
    impactStatement: Option<string>,
    evidence: string,
    assessor: string,
    owner: string,
    created: string,
    updated: string,
    expires: Option<string>)

  datatype VexDocument = VexDocument(version: int, asOf: string, statements: seq<VexStatement>)

  datatype VexError =
    | UnsupportedVersion
    | BadEvaluationTime
    | BadAsOf
    | AsOfInFuture
    | DuplicateStatementId(id: string)
    | BlankField(id: string)
    | DuplicateStatementKey(id: string)
    | NoImpactStatement(id: string)
    | NoExpiry(id: string)
    | BadExpiry(id: string)
    | Expired(id: string)

  /** The parser for RFC 3339 instants. */
  type Clock = string -> Option<int>

  predicate FieldsPresent(item: VexStatement) {
    && StartsWith(item.rootBomRef, "root:")
    && !Blank(item.advisory) && !Blank(item.justification) && !Blank(item.evidence) && !Blank(item.assessor)
    && !Blank(item.owner) && !Blank(item.created) && !Blank(item.updated)
  }

  /** A claim of "not affected" needs an impact statement and must not have expired. */
  predicate Current(item: VexStatement, now: int, clock: Clock) {
    item.status.NotAffected? ==>
      && item.impactStatement.Some? && item.impactStatement.value != ""
      && item.expires.Some? && clock(item.expires.value).Some? && clock(item.expires.value).value >= now
  }

  /** Statement `i` is well formed and the first about its id and its key. */
  ghost predicate ValidAt(statements: seq<VexStatement>, i: int, now: int, clock: Clock)
    requires 0 <= i < |statements|
  {
    && FieldsPresent(statements[i]) && Current(statements[i], now, clock)
    && forall j :: 0 <= j < i ==> statements[j].id != statements[i].id && VexKey(statements[j]) != VexKey(statements[i])
  }

  ghost predicate ValidStatements(statements: seq<VexStatement>, now: int, clock: Clock) {
    forall i :: 0 <= i < |statements| ==> ValidAt(statements, i, now, clock)
  }

  function VexKey(item: VexStatement): (string, MatchedIdentity, string) {
    (item.rootBomRef, item.component, item.advisory)
  }

  ghost predicate ValidVex(doc: VexDocument, time: string, clock: Clock) {
    && doc.version == 1
    && clock(time).Some? && clock(doc.asOf).Some? && clock(doc.asOf).value <= clock(time).value
    && ValidStatements(doc.statements, clock(time).value, clock)
  }

  /** What each refusal of a claim of "not affected" reports is true of it. */
  ghost predicate ClaimDefect(item: VexStatement, now: int, clock: Clock, e: VexError) {
    item.status.NotAffected? &&
    match e
    case NoImpactStatement(id) => id == item.id && (item.impactStatement == None || item.impactStatement == Some(""))
    case NoExpiry(id) => id == item.id && item.expires == None
    case BadExpiry(id) => id == item.id && item.expires.Some? && clock(item.expires.value) == None
    case Expired(id) =>
      id == item.id && item.expires.Some? && clock(item.expires.value).Some? && clock(item.expires.value).value < now
    case _ => false
  }

  /** The same for statement `i`, which comes after those it may repeat. */
  ghost predicate StatementDefect(statements: seq<VexStatement>, i: int, now: int, clock: Clock, e: VexError) {
    0 <= i < |statements| &&
    match e
    case DuplicateStatementId(id) => id == statements[i].id && exists j :: 0 <= j < i && statements[j].id == id
    case BlankField(id) => id == statements[i].id && !FieldsPresent(statements[i])
    case DuplicateStatementKey(id) => id == statements[i].id && exists j :: 0 <= j < i && SameSubject(statements[j], statements[i])
    case _ => ClaimDefect(statements[i], now, clock, e)
  }

  predicate SameSubject(s: VexStatement, t: VexStatement) {
    s.rootBomRef == t.rootBomRef && s.component == t.component && s.advisory == t.advisory
  }

  ghost predicate VexDefect(doc: VexDocument, time: string, clock: Clock, e: VexError) {
    match e
    case UnsupportedVersion => doc.version != 1
    case BadEvaluationTime => clock(time) == None
    case BadAsOf => clock(doc.asOf) == None
    case AsOfInFuture => clock(doc.asOf).Some? && clock(time).Some? && clock(time).value < clock(doc.asOf).value
    case _ => clock(time).Some? && exists i :: StatementDefect(doc.statements, i, clock(time).value, clock, e)
  }

  method ValidateStatement(item: VexStatement, now: int, clock: Clock) returns (r: Result<(), VexError>)
    ensures r.Ok? <==> Current(item, now, clock)
    ensures r.Err? ==> ClaimDefect(item, now, clock, r.error)
  {
    if item.status.NotAffected? {
      if item.impactStatement.None? || item.impactStatement.value == "" { return Err(NoImpactStatement(item.id)); }
      if item.expires.None? { return Err(NoExpiry(item.id)); }
      if clock(item.expires.value).None? { return Err(BadExpiry(item.id)); }
      if clock(item.expires.value).value < now { return Err(Expired(item.id)); }
    }
    return Ok(());
  }

  /** The statements before `i` have exactly these ids and keys. */
  ghost predicate SeenBefore(statements: seq<VexStatement>, i: int, ids: set<string>, keys: set<(string, MatchedIdentity, string)>)
    requires 0 <= i <= |statements|
  {
    && (forall id :: id in ids <==> exists j :: 0 <= j < i && statements[j].id == id)
    && (forall k :: k in keys <==> exists j :: 0 <= j < i && VexKey(statements[j]) == k)
  }

  method ValidateAt(statements: seq<VexStatement>, i: nat, ids: set<string>, keys: set<(string, MatchedIdentity, string)>,
                    now: int, clock: Clock)
    returns (r: Result<(), VexError>)
    requires i < |statements| && SeenBefore(statements, i, ids, keys)
    ensures r.Ok? <==> ValidAt(statements, i, now, clock)
    ensures r.Err? ==> StatementDefect(statements, i, now, clock, r.error)
  {
    var item := statements[i];
    if item.id in ids { return Err(DuplicateStatementId(item.id)); }
    if !StartsWith(item.rootBomRef, "root:") { return Err(BlankField(item.id)); }
    if Blank(item.advisory) || Blank(item.justification) || Blank(item.evidence) { return Err(BlankField(item.id)); }
    if Blank(item.assessor) || Blank(item.owner) || Blank(item.created) || Blank(item.updated) {
      return Err(BlankField(item.id));
    }
    if VexKey(item) in keys { return Err(DuplicateStatementKey(item.id)); }
    r := ValidateStatement(item, now, clock);
  }

  lemma SeeOneMore(statements: seq<VexStatement>, i: int, ids: set<string>, keys: set<(string, MatchedIdentity, string)>)
    requires 0 <= i < |statements| && SeenBefore(statements, i, ids, keys)
    ensures SeenBefore(statements, i + 1, ids + {statements[i].id}, keys + {VexKey(statements[i])})
  {
  }

  method ValidateStatements(statements: seq<VexStatement>, now: int, clock: Clock) returns (r: Result<(), VexError>)
    ensures r.Ok? <==> ValidStatements(statements, now, clock)
    ensures r.Err? ==> exists i :: StatementDefect(statements, i, now, clock, r.error)
    ensures r.Err? ==> !r.error.UnsupportedVersion? && !r.error.BadEvaluationTime? && !r.error.BadAsOf? && !r.error.AsOfInFuture?
  {
    var ids: set<string> := {};
    var keys: set<(string, MatchedIdentity, string)> := {};
    for i := 0 to |statements|
      invariant SeenBefore(statements, i, ids, keys)
      invariant forall j :: 0 <= j < i ==> ValidAt(statements, j, now, clock)
    {
      r := ValidateAt(statements, i, ids, keys, now, clock);
      if r.Err? { return; }
      SeeOneMore(statements, i, ids, keys);
      ids, keys := ids + {statements[i].id}, keys + {VexKey(statements[i])};
    }
    return Ok(());
  }

  /** `validate_vex`: accepts exactly the current documents in which no two statements share an
      id or speak about the same root, component and advisory. */
  method ValidateVex(doc: VexDocument, time: string, clock: Clock) returns (r: Result<(), VexError>)
    ensures r.Ok? <==> ValidVex(doc, time, clock)
    ensures r.Err? ==> VexDefect(doc, time, clock, r.error)
  {
    if doc.version != 1 { return Err(UnsupportedVersion); }
    if clock(time).None? { return Err(BadEvaluationTime); }
    if clock(doc.asOf).None? { return Err(BadAsOf); }
    if clock(doc.asOf).value > clock(time).value { return Err(AsOfInFuture); }
    r := ValidateStatements(doc.statements, clock(time).value, clock);
  }

  predicate Applies(item: VexStatement, root: string, component: MatchedIdentity, advisory: string) {
    item.rootBomRef == "root:" + root && item.component == component && item.advisory == advisory
  }

  /** `assessment`: the first statement about this root, identity and advisory. */
  function Assessment(statements: seq<VexStatement>, root: string, component: MatchedIdentity, advisory: string)
    : (r: Option<VexStatement>)
    ensures r.Some? ==> r.value in statements && Applies(r.value, root, component, advisory)
    ensures r.None? ==> forall s :: s in statements ==> !Applies(s, root, component, advisory)
  {
    if statements == [] then None
    else if Applies(statements[0], root, component, advisory) then Some(statements[0])
    else Assessment(statements[1..], root, component, advisory)
  }

  /** In a valid document the assessment is the one statement that applies. */
  lemma AssessmentIsUnique(doc: VexDocument, time: string, clock: Clock, root: string, component: MatchedIdentity,
                           advisory: string, s: VexStatement)
    requires ValidVex(doc, time, clock)
    ensures Assessment(doc.statements, root, component, advisory) == Some(s) <==>
      s in doc.statements && Applies(s, root, component, advisory)
  {
    var found := Assessment(doc.statements, root, component, advisory);
    if s in doc.statements && Applies(s, root, component, advisory) {
      var i, j :| 0 <= i < |doc.statements| && 0 <= j < |doc.statements| && doc.statements[i] == s && doc.statements[j] == found.value;
      assert VexKey(s) == VexKey(found.value);
      assert ValidAt(doc.statements, i, clock(time).value, clock) && ValidAt(doc.statements, j, clock(time).value, clock);
    }
  }
}
