/**
 Value types of the policy domain. Enumerations that the program keeps in one
 byte stay bytes here, so that values outside the declared range exist and the
 checks that refuse them mean something. Times are Unix seconds.
 */
module Domain {

  type Byte = x: int | 0 <= x < 256

  // Claims
  const METADATA: Byte := 1
  const CHECKSUM: Byte := 2
  const PROVENANCE: Byte := 3
  const PUBLICATION: Byte := 4
  const VULNERABILITIES: Byte := 5

  // Verification status
  const VERIFIED: Byte := 1
  const FAILED: Byte := 2
  const UNSUPPORTED: Byte := 4

  // Applicability of advisories
  const NO_KNOWN_APPLICABLE_FINDINGS: Byte := 1
  const AFFECTED: Byte := 2

  // Publication events
  const VERIFIED_ATTESTATION: Byte := 4

  type Digest = string

  predicate ValidDigest(d: Digest) {
    |d| == 64 && forall c <- d :: '0' <= c <= '9' || 'a' <= c <= 'f'
  }

  predicate ValidFormulaName(name: string) {
    && 1 <= |name| <= 128
    && ('a' <= name[0] <= 'z' || '0' <= name[0] <= '9')
    && forall c <- name :: 'a' <= c <= 'z' || '0' <= c <= '9' || c in "+_.@-"
  }

  predicate ValidVersion(text: string) {
    && 1 <= |text| <= 128
    && (Alphanumeric(text[0]))
    && forall c <- text :: Alphanumeric(c) || c in "+_.:-"
  }

  predicate Alphanumeric(c: char) {
    'a' <= c <= 'z' || 'A' <= c <= 'Z' || '0' <= c <= '9'
  }

  predicate ValidLabel(s: string) {
    1 <= |s| <= 256 && forall c <- s :: ' ' <= c <= '~'
  }

  predicate ValidAgeReason(s: string) {
    && |s| <= 512
    && (exists c <- s :: c != ' ')
    && forall c <- s :: ' ' <= c <= '~'
  }

  datatype Artifact = Artifact(
    tap: string, name: string, version: string, revision: int, rebuild: int,
    os: string, arch: string, bottleTag: string, sha256: Digest)
  {
    predicate Valid() {
      && tap == "homebrew/core" && ValidFormulaName(name)
      && ValidVersion(version) && revision >= 0 && rebuild >= 0
      && os == "macos" && (arch == "arm64" || arch == "amd64")
      && ValidFormulaName(bottleTag) && ValidDigest(sha256)
    }
  }

  const NO_ARTIFACT := Artifact("", "", "", 0, 0, "", "", "", "")

  datatype Evidence = Evidence(
    claim: Byte, subject: Artifact, status: Byte, provider: Byte, source: string,
    providerVersion: string, rawSHA256: Digest, observedAt: int, expiresAt: int,
    publishedAt: int, publication: Byte, applicability: Byte)
  {
    predicate Valid() {
      && subject.Valid() && METADATA <= claim <= VULNERABILITIES
      && VERIFIED <= status <= UNSUPPORTED
      && (provider == 1 || provider == 2)
      && ValidLabel(source) && ValidLabel(providerVersion) && ValidDigest(rawSHA256)
      && observedAt > 0 && expiresAt > observedAt
    }
  }

  datatype Node = Node(artifact: Artifact, dependencies: seq<Artifact>, evidence: seq<Evidence>)

  datatype Policy = Policy(minimumAgeSeconds: int, valid: bool)

  datatype Binding = Binding(plan: Digest, policy: Digest, graph: Digest, environment: Digest, attempt: Digest)
  {
    predicate Valid() {
      ValidDigest(plan) && ValidDigest(policy) && ValidDigest(graph) && ValidDigest(environment) && ValidDigest(attempt)
    }
  }

  datatype AgeWaiver = AgeWaiver(artifact: Artifact, reason: string)

  datatype AgeException = AgeException(binding: Binding, issuedAt: int, expiresAt: int, waivers: seq<AgeWaiver>)

  datatype Option<+T> = None | Some(value: T)

  datatype Assessment = Assessment(
    policy: Policy, binding: Binding, targets: seq<Artifact>, nodes: seq<Node>, now: int,
    exception: Option<AgeException>)

  /** Ordered by restriction. */
  datatype Outcome = Allow | Hold | Deny

  /** The stable reason codes of a decision. */
  datatype Code =
    | AssessmentInvalidOrReplayed
    | DependencyGraphInvalid
    | AgeExceptionInvalid
    | EvidenceSubjectOrClaimMismatch
    | IntegrityVerificationFailed
    | KnownApplicableVulnerability
    | EvidenceMissingOrAmbiguous
    | EvidenceInvalidOrStale
    | RequiredEvidenceUnverified
    | VulnerabilityApplicabilityUnresolved
    | PublicationUnknownOrConflicting
    | ReleaseTooYoung

  datatype Reason = Reason(code: Code, artifact: Artifact, claim: Byte)

  datatype Decision = Decision(outcome: Outcome, reasons: seq<Reason>, waived: seq<Artifact>)
}
