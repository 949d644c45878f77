/**
 Signed environment manifests (internal/environment/manifest.go): validation, the canonical form that the digest and the
 signature are taken over, sealing and verifying.
 */
module Manifests {
  import opened Common
  import opened Text
  import opened Sorting

  datatype Resource = Resource(path: string, sha256: string, size: int)
  datatype Entrypoint = Entrypoint(name: string, path: string, runtime: string)
  datatype HealthProbe = HealthProbe(name: string, kind: string, target: string, timeoutSeconds: int)
  datatype Policies = Policies(atomic: bool, requiresRestart: bool, removeResources: bool, retainRollback: bool)

  datatype Manifest = Manifest(
    api: string, environmentID: string, version: string,
    targets: seq<string>, capabilities: seq<string>, permissions: seq<string>, resources: seq<Resource>,
    dependencies: seq<string>, policies: Policies, healthProbes: seq<HealthProbe>, entrypoints: seq<Entrypoint>,
    signer: string, signature: string, signatureAlgorithm: string, manifestDigest: string)

  const API := "chuzi-environment/v1"
  const MANIFEST_NAME := "environment-manifest.json"
  const ED25519 := "ed25519"

  // ----- Field checks -----

  predicate ValidToken(v: string, max: nat) {
    Trimmed(v) && v != "" && Utf8Length(v) <= max && !ContainsAny(v, {'\0', '\r', '\n', '\t'})
  }

  predicate ValidPathParts(v: string) {
    forall part | part in Split(v, '/') :: part != "" && part != "." && part != ".."
  }

  predicate ValidEnvironmentID(v: string) {
    ValidToken(v, 256) && !ContainsAny(v, {'\\', ':', '@'}) && ValidPathParts(v)
  }

  predicate ValidEnvironmentVersion(v: string) {
    ValidToken(v, 128) && v != "." && v != ".." && !ContainsAny(v, {'/', '\\', ':', '@'})
  }

  predicate ValidRelative(v: string) {
    !Blank(v) && !ContainsAny(v, {':', '\\', '\0'}) && ValidPathParts(v)
  }

  predicate IsHex(c: char) {
    '0' <= c <= '9' || 'a' <= c <= 'f' || 'A' <= c <= 'F'
  }

  predicate ValidSHA256(v: string) {
    |v| == 64 && forall i | 0 <= i < 64 :: IsHex(v[i])
  }

  function Lower(c: char): char {
    if 'A' <= c <= 'Z' then c + 32 as char else c
  }

  /** Equality up to the case of ASCII letters, which is what case folding means on hexadecimal digests. */
  predicate EqualFold(a: string, b: string) {
    |a| == |b| && forall i | 0 <= i < |a| :: Lower(a[i]) == Lower(b[i])
  }

  function Extension(path: string): string {
    if path == "" || path[|path| - 1] == '/' then ""
    else if path[|path| - 1] == '.' then "."
    else
      var rest := Extension(path[..|path| - 1]);
      if rest == "" then "" else rest + [path[|path| - 1]]
  }

  predicate Executable(path: string) {
    var ext := Extension(path);
    exists forbidden | forbidden in [".sh", ".bash", ".ps1", ".bat", ".cmd", ".com", ".exe", ".dll"] ::
      EqualFold(ext, forbidden)
  }

  predicate ResourceOk(r: Resource) {
    ValidRelative(r.path) && !Executable(r.path) && r.path != MANIFEST_NAME && r.size > 0 && ValidSHA256(r.sha256)
  }

  predicate EntrypointOk(e: Entrypoint) {
    && ValidToken(e.name, 128) && ValidRelative(e.path)
    && (e.runtime == "browser-worker" || e.runtime == "agent" || e.runtime == "adapter-bridge")
  }

  predicate ProbeOk(p: HealthProbe) {
    && ValidToken(p.name, 128) && ValidToken(p.kind, 64) && 0 <= p.timeoutSeconds <= 3600
    && !ContainsAny(p.target, {'\0', '\r', '\n'})
  }

  // ----- Validation -----

  predicate UniqueTokens(values: seq<string>, max: nat) {
    && (forall v | v in values :: ValidToken(v, max))
    && (forall i, j | 0 <= i < j < |values| :: values[i] != values[j])
  }

  predicate ResourcesOk(rs: seq<Resource>) {
    && (forall r | r in rs :: ResourceOk(r))
    && (forall i, j | 0 <= i < j < |rs| :: rs[i].path != rs[j].path)
  }

  predicate EntrypointsOk(es: seq<Entrypoint>, rs: seq<Resource>) {
    && es != []
    && (forall e | e in es :: EntrypointOk(e) && exists r | r in rs :: r.path == e.path)
    && (forall i, j | 0 <= i < j < |es| :: es[i].name != es[j].name)
  }

  predicate ProbesOk(ps: seq<HealthProbe>) {
    forall p | p in ps :: ProbeOk(p)
  }

  /** The part of validation that reads neither digest nor signature. */
  predicate ContentOk(m: Manifest) {
    && m.api == API && ValidEnvironmentID(m.environmentID) && ValidEnvironmentVersion(m.version)
    && ValidToken(m.signer, 256)
    && m.targets != [] && m.capabilities != []
    && UniqueTokens(m.targets, 128) && UniqueTokens(m.capabilities, 128) && UniqueTokens(m.permissions, 128)
    && UniqueTokens(m.dependencies, 256)
    && ResourcesOk(m.resources) && EntrypointsOk(m.entrypoints, m.resources) && ProbesOk(m.healthProbes)
  }

  predicate ValidManifest(m: Manifest) {
    && ContentOk(m)
    && (m.signature != "" ==> m.signatureAlgorithm == ED25519)
    && (m.manifestDigest != "" ==> ValidSHA256(m.manifestDigest))
  }

  /** The duplicate check of a token list: one pass with a set of the values seen. */
  method CheckTokens(values: seq<string>, max: nat) returns (ok: bool)
    ensures ok <==> UniqueTokens(values, max)
  {
    hide ValidToken;
    var seen: set<string> := {};
    for i := 0 to |values|
      invariant forall v :: v in seen <==> v in values[..i]
      invariant UniqueTokens(values[..i], max)
    {
      if !ValidToken(values[i], max) || values[i] in seen {
        assert values[i] in values;
        return false;
      }
      seen := seen + {values[i]};
      assert values[..i + 1] == values[..i] + [values[i]];
    }
    assert values[..|values|] == values;
    return true;
  }

  /** Resources and entry points: paths and names must not repeat, and every entry point must be a resource. */
  method CheckContents(m: Manifest) returns (ok: bool)
    ensures ok <==> ResourcesOk(m.resources) && EntrypointsOk(m.entrypoints, m.resources)
  {
    hide ResourceOk, EntrypointOk;
    var seen: set<string> := {};
    for i := 0 to |m.resources|
      invariant forall p :: p in seen <==> exists j | 0 <= j < i :: m.resources[j].path == p
      invariant forall j | 0 <= j < i :: ResourceOk(m.resources[j])
      invariant forall a, b | 0 <= a < b < i :: m.resources[a].path != m.resources[b].path
    {
      if !ResourceOk(m.resources[i]) || m.resources[i].path in seen { return false; }
      seen := seen + {m.resources[i].path};
    }
    assert ResourcesOk(m.resources);
    if m.entrypoints == [] { return false; }
    var names: set<string> := {};
    for i := 0 to |m.entrypoints|
      invariant forall n :: n in names <==> exists j | 0 <= j < i :: m.entrypoints[j].name == n
      invariant forall j | 0 <= j < i :: EntrypointOk(m.entrypoints[j]) && m.entrypoints[j].path in seen
      invariant forall a, b | 0 <= a < b < i :: m.entrypoints[a].name != m.entrypoints[b].name
    {
      var e := m.entrypoints[i];
      if !EntrypointOk(e) || e.name in names || e.path !in seen {
        assert e in m.entrypoints;
        return false;
      }
      names := names + {e.name};
    }
    assert forall e | e in m.entrypoints :: exists r | r in m.resources :: r.path == e.path;
    return true;
  }

  // ----- Canonical form -----

  function ByText(): (string, string) -> bool { (a, b) => StringLeq(a, b) }
  function ByPath(): (Resource, Resource) -> bool { (a: Resource, b: Resource) => StringLeq(a.path, b.path) }
  function ByName(): (Entrypoint, Entrypoint) -> bool { (a: Entrypoint, b: Entrypoint) => StringLeq(a.name, b.name) }
  function ByProbe(): (HealthProbe, HealthProbe) -> bool {
    (a: HealthProbe, b: HealthProbe) => StringLeq(a.name, b.name)
  }

  lemma KeysAreTotal()
    ensures TotalPreorder(ByText()) && TotalPreorder(ByPath()) && TotalPreorder(ByName()) && TotalPreorder(ByProbe())
  {
    forall a, b, c
      ensures (StringLeq(a, b) || StringLeq(b, a)) && (StringLeq(a, b) && StringLeq(b, c) ==> StringLeq(a, c))
    {
      StringLeqOrders(a, b, c);
    }
  }

  function Unsigned(m: Manifest): Manifest {
    m.(manifestDigest := "", signature := "", signatureAlgorithm := "")
  }

  /** Digest and signature dropped, every list sorted. */
  function Arranged(m: Manifest): Manifest {
    KeysAreTotal();
    Unsigned(m).(
      targets := Sort(m.targets, ByText()), capabilities := Sort(m.capabilities, ByText()),
      permissions := Sort(m.permissions, ByText()), dependencies := Sort(m.dependencies, ByText()),
      resources := Sort(m.resources, ByPath()), entrypoints := Sort(m.entrypoints, ByName()),
      healthProbes := Sort(m.healthProbes, ByProbe()))
  }

  /** The arranged manifest, if it validates. */
  function Canonical(m: Manifest): Option<Manifest> {
    if ValidManifest(Arranged(m)) then Some(Arranged(m)) else None
  }

  /** `n` is `m` with its lists reordered, whatever either says about digest and signature. */
  ghost predicate Reorders(m: Manifest, n: Manifest) {
    && multiset(m.targets) == multiset(n.targets) && multiset(m.capabilities) == multiset(n.capabilities)
    && multiset(m.permissions) == multiset(n.permissions) && multiset(m.dependencies) == multiset(n.dependencies)
    && multiset(m.resources) == multiset(n.resources) && multiset(m.entrypoints) == multiset(n.entrypoints)
    && multiset(m.healthProbes) == multiset(n.healthProbes)
    && m.api == n.api && m.environmentID == n.environmentID && m.version == n.version && m.policies == n.policies
    && m.signer == n.signer
  }

  ghost predicate InOrder(m: Manifest) {
    && Ascending(m.targets, ByText()) && Ascending(m.capabilities, ByText()) && Ascending(m.permissions, ByText())
    && Ascending(m.dependencies, ByText()) && Ascending(m.resources, ByPath())
    && Ascending(m.entrypoints, ByName()) && Ascending(m.healthProbes, ByProbe())
  }

  /** Equal names mean equal probes; validation does not ask for this, unlike for resources and entry points. */
  ghost predicate ProbesDistinct(m: Manifest) {
    DistinctKeys(m.healthProbes, ByProbe())
  }

  lemma TokensHaveDistinctKeys(values: seq<string>)
    ensures DistinctKeys(values, ByText())
  {
    forall i, j | 0 <= i < |values| && 0 <= j < |values| && StringLeq(values[i], values[j]) && StringLeq(values[j], values[i])
      ensures values[i] == values[j]
    {
      StringLeqOrders(values[i], values[j], "");
    }
  }

  lemma ContentsHaveDistinctKeys(rs: seq<Resource>, es: seq<Entrypoint>)
    requires forall i, j | 0 <= i < j < |rs| :: rs[i].path != rs[j].path
    requires forall i, j | 0 <= i < j < |es| :: es[i].name != es[j].name
    ensures DistinctKeys(rs, ByPath()) && DistinctKeys(es, ByName())
  {
    forall i, j | 0 <= i < |rs| && 0 <= j < |rs| && StringLeq(rs[i].path, rs[j].path) && StringLeq(rs[j].path, rs[i].path)
      ensures rs[i] == rs[j]
    {
      StringLeqOrders(rs[i].path, rs[j].path, "");
    }
    forall i, j | 0 <= i < |es| && 0 <= j < |es| && StringLeq(es[i].name, es[j].name) && StringLeq(es[j].name, es[i].name)
      ensures es[i] == es[j]
    {
      StringLeqOrders(es[i].name, es[j].name, "");
    }
  }

  /** Two valid, unsigned, ordered manifests that reorder one another are the same manifest. */
  lemma OrderedFormIsUnique(c: Manifest, d: Manifest)
    requires ContentOk(c) && InOrder(c) && InOrder(d) && Reorders(c, d) && ProbesDistinct(c)
    ensures Unsigned(c) == Unsigned(d)
  {
    hide ValidToken, ResourceOk, EntrypointOk, ProbeOk, StringLeq, ValidEnvironmentID, ValidEnvironmentVersion;
    TokensHaveDistinctKeys(c.targets);
    AscendingPermutationIsUnique(c.targets, d.targets, ByText());
    TokensHaveDistinctKeys(c.capabilities);
    AscendingPermutationIsUnique(c.capabilities, d.capabilities, ByText());
    TokensHaveDistinctKeys(c.permissions);
    AscendingPermutationIsUnique(c.permissions, d.permissions, ByText());
    TokensHaveDistinctKeys(c.dependencies);
    AscendingPermutationIsUnique(c.dependencies, d.dependencies, ByText());
    ContentsHaveDistinctKeys(c.resources, c.entrypoints);
    AscendingPermutationIsUnique(c.resources, d.resources, ByPath());
    AscendingPermutationIsUnique(c.entrypoints, d.entrypoints, ByName());
    AscendingPermutationIsUnique(c.healthProbes, d.healthProbes, ByProbe());
  }

  // ----- Order does not matter -----

  lemma TokensIgnoreOrder(a: seq<string>, b: seq<string>, max: nat)
    requires multiset(a) == multiset(b) && UniqueTokens(a, max)
    ensures UniqueTokens(b, max)
  {
    hide ValidToken;
    PermutationKeepsElements(a, b);
  }

  lemma PathsAreStrictKeys(rs: seq<Resource>)
    ensures (forall i, j | 0 <= i < j < |rs| :: rs[i].path != rs[j].path) <==> StrictKeys(rs, ByPath())
    ensures forall r | r in rs :: ByPath()(r, r)
  {
    forall i, j | 0 <= i < j < |rs|
      ensures rs[i].path == rs[j].path <==> ByPath()(rs[i], rs[j]) && ByPath()(rs[j], rs[i])
    {
      StringLeqOrders(rs[i].path, rs[j].path, "");
    }
    forall r | r in rs ensures ByPath()(r, r) { StringLeqOrders(r.path, r.path, ""); }
  }

  lemma NamesAreStrictKeys(es: seq<Entrypoint>)
    ensures (forall i, j | 0 <= i < j < |es| :: es[i].name != es[j].name) <==> StrictKeys(es, ByName())
    ensures forall e | e in es :: ByName()(e, e)
  {
    forall i, j | 0 <= i < j < |es|
      ensures es[i].name == es[j].name <==> ByName()(es[i], es[j]) && ByName()(es[j], es[i])
    {
      StringLeqOrders(es[i].name, es[j].name, "");
    }
    forall e | e in es ensures ByName()(e, e) { StringLeqOrders(e.name, e.name, ""); }
  }

  lemma ContentsIgnoreOrder(rs: seq<Resource>, ss: seq<Resource>, es: seq<Entrypoint>, fs: seq<Entrypoint>)
    requires multiset(rs) == multiset(ss) && multiset(es) == multiset(fs)
    requires ResourcesOk(rs) && EntrypointsOk(es, rs)
    ensures ResourcesOk(ss) && EntrypointsOk(fs, ss)
  {
    hide ResourceOk, EntrypointOk, StringLeq;
    PathsAreStrictKeys(rs);
    PathsAreStrictKeys(ss);
    StrictKeysOfPermutation(rs, ss, ByPath());
    NamesAreStrictKeys(es);
    NamesAreStrictKeys(fs);
    StrictKeysOfPermutation(es, fs, ByName());
    forall r ensures r in rs <==> r in ss { SameMembers(rs, ss, r); }
    forall e ensures e in es <==> e in fs { SameMembers(es, fs, e); }
    forall e | e in fs ensures exists r | r in ss :: r.path == e.path {
      var r :| r in rs && r.path == e.path;
      assert r in ss;
    }
  }

  lemma SameMembers<T>(xs: seq<T>, ys: seq<T>, x: T)
    requires multiset(xs) == multiset(ys)
    ensures x in xs <==> x in ys
  {
    assert x in xs <==> x in multiset(xs);
    assert x in ys <==> x in multiset(ys);
  }

  /** Validation does not depend on the order of any list. */
  lemma ContentIgnoresOrder(m: Manifest, n: Manifest)
    requires Reorders(m, n) && ContentOk(m)
    ensures ContentOk(n)
  {
    TokensIgnoreOrder(m.targets, n.targets, 128);
    TokensIgnoreOrder(m.capabilities, n.capabilities, 128);
    TokensIgnoreOrder(m.permissions, n.permissions, 128);
    TokensIgnoreOrder(m.dependencies, n.dependencies, 256);
    ContentsIgnoreOrder(m.resources, n.resources, m.entrypoints, n.entrypoints);
    hide UniqueTokens, ResourcesOk, EntrypointsOk, ValidToken, ProbeOk, ValidEnvironmentID, ValidEnvironmentVersion;
    forall p | p in n.healthProbes ensures p in m.healthProbes { SameMembers(m.healthProbes, n.healthProbes, p); }
    assert m.targets == [] <==> n.targets == [] by { assert |multiset(m.targets)| == |multiset(n.targets)|; }
    assert m.capabilities == [] <==> n.capabilities == [] by {
      assert |multiset(m.capabilities)| == |multiset(n.capabilities)|;
    }
  }

  /** A canonical form exists exactly for valid contents; it is an ordered, unsigned rearrangement of the manifest. */
  lemma CanonicalForm(m: Manifest)
    ensures Canonical(m).Some? <==> ContentOk(m)
    ensures Canonical(m).Some? ==>
              var c := Canonical(m).value; Reorders(m, c) && Reorders(c, m) && InOrder(c) && Unsigned(c) == c && ContentOk(c)
  {
    hide ContentOk, Arranged;
    ArrangedForm(m);
    if ContentOk(m) { ContentIgnoresOrder(m, Arranged(m)); }
    if ContentOk(Arranged(m)) { ContentIgnoresOrder(Arranged(m), m); }
  }

  lemma ArrangedForm(m: Manifest)
    ensures var c := Arranged(m); Reorders(m, c) && InOrder(c) && Unsigned(c) == c
  {
    hide StringLeq, Sort;
    KeysAreTotal();
  }

  /** Whatever the sort did with it: any ordered, unsigned rearrangement of `m` is the canonical form. */
  lemma CanonicalIsAnySort(m: Manifest, c: Manifest)
    requires ContentOk(m) && ProbesDistinct(m)
    requires Reorders(m, c) && InOrder(c) && Unsigned(c) == c
    ensures Canonical(m) == Some(c)
  {
    CanonicalForm(m);
    hide ContentOk, Canonical;
    var d := Canonical(m).value;
    DistinctKeysOfPermutation(m.healthProbes, d.healthProbes, ByProbe());
    OrderedFormIsUnique(d, c);
  }

  /** Reordering the lists of a manifest does not change its canonical form. */
  lemma CanonicalIgnoresOrder(m: Manifest, n: Manifest)
    requires Reorders(m, n) && ProbesDistinct(m)
    ensures Canonical(m) == Canonical(n)
  {
    CanonicalForm(m);
    CanonicalForm(n);
    if ContentOk(m) {
      ContentIgnoresOrder(m, n);
      hide ContentOk, Canonical;
      CanonicalIsAnySort(m, Canonical(n).value);
    } else if ContentOk(n) {
      ContentIgnoresOrder(n, m);
    }
  }

  lemma CanonicalIsIdempotent(m: Manifest)
    requires Canonical(m).Some? && ProbesDistinct(m)
    ensures Canonical(Canonical(m).value) == Canonical(m)
  {
    CanonicalForm(m);
    hide ContentOk, Canonical;
    CanonicalIgnoresOrder(m, Canonical(m).value);
  }

  /** Digest and signature fields do not enter the canonical form. */
  lemma CanonicalIgnoresSignature(m: Manifest, n: Manifest)
    requires Unsigned(m) == Unsigned(n)
    ensures Canonical(m) == Canonical(n)
  {
    hide ValidManifest, Sort;
    assert Arranged(m) == Arranged(n);
  }

  /** Validation lets probes share a name; the order of the canonical probes is determined exactly when none differ. */
  lemma ProbeOrderIsDeterminedIffDistinct(m: Manifest)
    ensures (forall a, b | Arranges(a, m.healthProbes, ByProbe()) && Arranges(b, m.healthProbes, ByProbe()) :: a == b)
            <==> ProbesDistinct(m)
  {
    KeysAreTotal();
    ArrangementIsUniqueIffKeysDistinct(m.healthProbes, ByProbe());
  }

  // ----- Digest and signature -----

  type PrivateKey = string
  type PublicKey = string

  /** The primitives the source gets from its libraries. */
  datatype Crypto = Crypto(
    encode: Manifest -> string,
    hash: string -> string,
    publicKey: PrivateKey -> PublicKey,
    sign: (PrivateKey, string) -> string,
    check: (PublicKey, string, string) -> bool)

  /** What is assumed of them: digests are hexadecimal, signatures are not empty and check under their own key. */
  ghost predicate Sound(crypto: Crypto) {
    && (forall text :: ValidSHA256(crypto.hash(text)))
    && (forall key, text :: crypto.sign(key, text) != "")
    && (forall key, text :: crypto.check(crypto.publicKey(key), text, crypto.sign(key, text)))
  }

  function ComputeDigest(crypto: Crypto, m: Manifest): Option<string> {
    match Canonical(m)
    case None => None
    case Some(c) => Some(crypto.hash(crypto.encode(c)))
  }

  predicate VerifyDigest(crypto: Crypto, m: Manifest) {
    ComputeDigest(crypto, m).Some? && EqualFold(ComputeDigest(crypto, m).value, m.manifestDigest)
  }

  predicate VerifySignature(crypto: Crypto, m: Manifest, key: PublicKey) {
    && m.signatureAlgorithm == ED25519 && m.signature != ""
    && Canonical(m).Some?
    && crypto.check(key, crypto.encode(Canonical(m).value), m.signature)
  }

  /** The trust store's verdict: a known signer, a matching digest, a signature under that signer's key. */
  predicate TrustVerifies(crypto: Crypto, trust: map<string, PublicKey>, m: Manifest) {
    m.signer in trust && VerifyDigest(crypto, m) && VerifySignature(crypto, m, trust[m.signer])
  }

  function Seal(crypto: Crypto, m: Manifest, key: PrivateKey): Option<Manifest> {
    var cleared := m.(signature := "", signatureAlgorithm := "");
    match ComputeDigest(crypto, cleared)
    case None => None
    case Some(digest) =>
      var digested := cleared.(manifestDigest := digest);
      match Canonical(digested)
      case None => None
      case Some(c) => Some(digested.(signatureAlgorithm := ED25519, signature := crypto.sign(key, crypto.encode(c))))
  }

  /** Sealing succeeds exactly on valid contents, and what it yields is valid and passes both verifications. */
  lemma SealedVerifies(crypto: Crypto, m: Manifest, key: PrivateKey)
    requires Sound(crypto)
    ensures Seal(crypto, m, key).Some? <==> ContentOk(m)
    ensures Seal(crypto, m, key).Some? ==>
              var sealed := Seal(crypto, m, key).value;
              && Unsigned(sealed) == Unsigned(m) && ValidManifest(sealed)
              && VerifyDigest(crypto, sealed) && VerifySignature(crypto, sealed, crypto.publicKey(key))
  {
    hide ContentOk, Canonical;
    var cleared := m.(signature := "", signatureAlgorithm := "");
    CanonicalIgnoresSignature(m, cleared);
    CanonicalForm(m);
    if ContentOk(m) {
      var digested := cleared.(manifestDigest := ComputeDigest(crypto, cleared).value);
      CanonicalIgnoresSignature(m, digested);
      var sealed := Seal(crypto, m, key).value;
      CanonicalIgnoresSignature(m, sealed);
      CanonicalForm(sealed);
    }
  }

  /** The digest tells the two manifests apart: if their canonical forms hash alike, up to case, they are the same. */
  predicate Separates(crypto: Crypto, m: Manifest, n: Manifest) {
    var c, d := Canonical(m), Canonical(n);
    c.Some? && d.Some? && EqualFold(crypto.hash(crypto.encode(c.value)), crypto.hash(crypto.encode(d.value))) ==> c == d
  }

  /** Manifests that the digest tells apart have the same canonical form if they carry the same verified digest. */
  lemma DigestBindsContent(crypto: Crypto, m: Manifest, n: Manifest)
    requires VerifyDigest(crypto, m) && VerifyDigest(crypto, n) && EqualFold(m.manifestDigest, n.manifestDigest)
    requires Separates(crypto, m, n)
    ensures Canonical(m) == Canonical(n)
  {
    hide Canonical;
    var a, b := ComputeDigest(crypto, m).value, ComputeDigest(crypto, n).value;
    assert EqualFold(a, b);
  }
}
