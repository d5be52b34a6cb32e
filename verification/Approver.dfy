/**
 The approver's decision: a request must have the required shape, and its SPIFFE ID (section 2 of the
 SPIFFE-ID specification) must be the one of the service account that made it.
 */
module Approver {
  import opened Prelude
  import opened Strings
  import opened DashedDomain

  type Annotations = map<string, string>

  /** The namespaces of the cluster; one that is missing, or cannot be read, has no entry. */
  type Cluster = map<string, Annotations>

  const DOMAIN_ANNOTATION := "athenz.io/domain"

  /** A parsed URI: its scheme, and what its `String` method gives. */
  datatype Uri = Uri(scheme: string, text: string)

  datatype Usage = DigitalSignature | KeyEncipherment | ServerAuth | ClientAuth | OtherUsage(name: string)

  const REQUIRED_USAGES: seq<Usage> := [KeyEncipherment, DigitalSignature, ClientAuth, ServerAuth]

  datatype Csr = Csr(commonName: string, dnsNames: seq<string>, uris: seq<Uri>, signatureValid: bool,
    extensionsValid: bool)

  /** A CertificateRequest; `csr` is what its encoded request decodes to, if it does. */
  datatype Request = Request(csr: Option<Csr>, duration: Option<int>, isCA: bool, usages: seq<Usage>, username: string)

  datatype Options = Options(trustDomain: string, duration: int, multiTenancy: bool)

  datatype Denial =
    | BadEncoding | WrongDuration | BadSignature | BadExtensions | AsksForCA | WrongUsages
    | NotAServiceAccount | WrongScheme | NoAnnotations | WrongId | NoDomain | DomainMismatch

  // ---- Identity ------------------------------------------------------------------------------------------

  function SpiffeId(trustDomain: string, namespace: string, account: string): string {
    "spiffe://" + trustDomain + "/ns/" + namespace + "/sa/" + account
  }

  function DomainAnnotation(annotations: Annotations): string {
    if DOMAIN_ANNOTATION in annotations then annotations[DOMAIN_ANNOTATION] else ""
  }

  /** `getDomainFromServiceAccount`. */
  function AccountDomain(account: string): string {
    var i := LastIndexOf(account, '.');
    if i == -1 then account else account[..i]
  }

  /** `validateIdentityDomain`. */
  function ValidateIdentityDomain(cluster: Cluster, namespace: string, account: string): Option<Denial> {
    var domain := AccountDomain(account);
    if namespace == GetDashedDomain(domain) then None
    else if namespace !in cluster then Some(NoAnnotations)
    else
      var annotated := DomainAnnotation(cluster[namespace]);
      if annotated == "" then Some(NoDomain)
      else if annotated != domain && namespace != GetDashedDomain(annotated) then Some(DomainMismatch)
      else None
  }

  /** `validateIdentity`; a request without a URI is not looked at. */
  function ValidateIdentity(options: Options, cluster: Cluster, csr: Csr, username: string): Option<Denial>
    requires |csr.uris| > 0
  {
    var parts := Split(username, ':');
    if |parts| != 4 || parts[0] != "system" || parts[1] != "serviceaccount" then Some(NotAServiceAccount)
    else if csr.uris[0].scheme != "spiffe" then Some(WrongScheme)
    else
      var namespace, account := parts[2], parts[3];
      var wrongId :=
        if csr.uris[0].text == SpiffeId(options.trustDomain, namespace, account) then None
        else if namespace !in cluster then Some(NoAnnotations)
        else
          var domain := DomainAnnotation(cluster[namespace]);
          if csr.uris[0].text == SpiffeId(options.trustDomain, namespace, domain + "." + account) then None
          else Some(WrongId);
      if wrongId.Some? then wrongId
      else if options.multiTenancy then ValidateIdentityDomain(cluster, namespace, account)
      else None
  }

  /** `Evaluate`: the reason to deny the request, if there is one. */
  function Evaluate(options: Options, cluster: Cluster, req: Request): Option<Denial>
    requires req.csr.Some? ==> |req.csr.value.uris| > 0
  {
    if req.csr.None? then Some(BadEncoding)
    else if req.duration != Some(options.duration) then Some(WrongDuration)
    else if !req.csr.value.signatureValid then Some(BadSignature)
    else if !req.csr.value.extensionsValid then Some(BadExtensions)
    else if req.isCA then Some(AsksForCA)
    else if multiset(req.usages) != multiset(REQUIRED_USAGES) then Some(WrongUsages)
    else ValidateIdentity(options, cluster, req.csr.value, req.username)
  }

  // ---- What passing means --------------------------------------------------------------------------------

  function Username(namespace: string, account: string): string {
    "system:serviceaccount:" + namespace + ":" + account
  }

  predicate ColonFree(s: string) {
    ':' !in s
  }

  /** The two IDs an account may ask for: its own, and with its namespace's domain in front. */
  predicate Claims(trustDomain: string, cluster: Cluster, text: string, namespace: string, account: string) {
    || text == SpiffeId(trustDomain, namespace, account)
    || (namespace in cluster
        && text == SpiffeId(trustDomain, namespace, DomainAnnotation(cluster[namespace]) + "." + account))
  }

  lemma JoinFour(namespace: string, account: string)
    ensures Join(["system", "serviceaccount", namespace, account], ':') == Username(namespace, account)
  {
    var system, serviceaccount := "system", "serviceaccount";
    JoinParts(system, serviceaccount, namespace, account);
    assert system + [':'] + serviceaccount + [':'] == "system:serviceaccount:";
  }

  lemma JoinParts(a: string, b: string, c: string, d: string)
    ensures Join([a, b, c, d], ':') == a + [':'] + b + [':'] + c + [':'] + d
  {
    assert [a, b, c, d][1..] == [b, c, d] && [b, c, d][1..] == [c, d] && [c, d][1..] == [d];
    assert Join([c, d], ':') == c + [':'] + d;
    assert Join([b, c, d], ':') == b + [':'] + (c + [':'] + d);
  }

  lemma UsernameParts(namespace: string, account: string)
    requires ColonFree(namespace) && ColonFree(account)
    ensures Split(Username(namespace, account), ':') == ["system", "serviceaccount", namespace, account]
  {
    var parts := ["system", "serviceaccount", namespace, account];
    assert forall p <- parts :: ':' !in p;
    JoinFour(namespace, account);
    SplitJoin(parts, ':');
  }

  /** Nobody but a service account passes. */
  lemma OnlyAccountsPass(options: Options, cluster: Cluster, csr: Csr, username: string)
    requires |csr.uris| > 0 && ValidateIdentity(options, cluster, csr, username).None?
    ensures exists n, a :: ColonFree(n) && ColonFree(a) && username == Username(n, a)
  {
    var parts := Split(username, ':');
    SplitParts(username, ':');
    JoinFour(parts[2], parts[3]);
    assert parts == ["system", "serviceaccount", parts[2], parts[3]];
    assert ColonFree(parts[2]) && ColonFree(parts[3]);
  }

  /** When a service account passes. */
  lemma PassesExactly(options: Options, cluster: Cluster, csr: Csr, n: string, a: string)
    requires |csr.uris| > 0 && ColonFree(n) && ColonFree(a)
    ensures ValidateIdentity(options, cluster, csr, Username(n, a)).None? <==>
      && csr.uris[0].scheme == "spiffe"
      && Claims(options.trustDomain, cluster, csr.uris[0].text, n, a)
      && TenancyHolds(options, cluster, n, a)
  {
    UsernameParts(n, a);
  }

  /** The ID determines the namespace and the name in it, as namespaces hold no slash. */
  lemma IdDetermines(trustDomain: string, n: string, a: string, m: string, b: string)
    requires '/' !in n && '/' !in m
    ensures SpiffeId(trustDomain, n, a) == SpiffeId(trustDomain, m, b) <==> n == m && a == b
  {
    if SpiffeId(trustDomain, n, a) == SpiffeId(trustDomain, m, b) {
      var prefix := "spiffe://" + trustDomain + "/ns/";
      var s, t := n + ['/'] + ("sa/" + a), m + ['/'] + ("sa/" + b);
      assert SpiffeId(trustDomain, n, a) == prefix + s && SpiffeId(trustDomain, m, b) == prefix + t;
      assert s == (prefix + s)[|prefix|..] && t == (prefix + t)[|prefix|..];
      CutAtSlash(n, "sa/" + a);
      CutAtSlash(m, "sa/" + b);
      assert a == s[|n| + 4..] && b == t[|m| + 4..];
    }
  }

  lemma CutAtSlash(n: string, rest: string)
    requires '/' !in n
    ensures Split(n + ['/'] + rest, '/')[0] == n
  {
    SplitConcat(n, rest, '/');
    SplitNone(n, '/');
  }

  /** One account is the other with the namespace's domain in front. */
  predicate Prefixed(cluster: Cluster, namespace: string, a: string, b: string) {
    namespace in cluster && a == DomainAnnotation(cluster[namespace]) + "." + b
  }

  /** Some request would let both accounts pass. */
  ghost predicate ShareAnId(options: Options, cluster: Cluster, n: string, a: string, m: string, b: string) {
    exists csr: Csr :: |csr.uris| > 0
      && ValidateIdentity(options, cluster, csr, Username(n, a)).None?
      && ValidateIdentity(options, cluster, csr, Username(m, b)).None?
  }

  predicate Related(cluster: Cluster, n: string, a: string, m: string, b: string) {
    n == m && (a == b || Prefixed(cluster, n, a, b) || Prefixed(cluster, n, b, a))
  }

  predicate TenancyHolds(options: Options, cluster: Cluster, n: string, a: string) {
    options.multiTenancy ==> ValidateIdentityDomain(cluster, n, a).None?
  }

  /**
   Soundness, as tight as it can be: two service accounts can pass for one ID exactly when they share
   the namespace, are equal or differ only by that namespace's domain prefix, and, with multi-tenancy,
   both belong to the namespace.
   */
  lemma SharedIdsExactly(options: Options, cluster: Cluster, n: string, a: string, m: string, b: string)
    requires ColonFree(n) && ColonFree(a) && ColonFree(m) && ColonFree(b) && '/' !in n && '/' !in m
    ensures ShareAnId(options, cluster, n, a, m, b) <==>
      && Related(cluster, n, a, m, b)
      && TenancyHolds(options, cluster, n, a) && TenancyHolds(options, cluster, m, b)
  {
    if ShareAnId(options, cluster, n, a, m, b) {
      var csr: Csr :| |csr.uris| > 0
        && ValidateIdentity(options, cluster, csr, Username(n, a)).None?
        && ValidateIdentity(options, cluster, csr, Username(m, b)).None?;
      PassesExactly(options, cluster, csr, n, a);
      PassesExactly(options, cluster, csr, m, b);
      ClaimsRelated(options.trustDomain, cluster, csr.uris[0].text, n, a, m, b);
    }
    if Related(cluster, n, a, m, b) && TenancyHolds(options, cluster, n, a) && TenancyHolds(options, cluster, m, b) {
      var longer := if Prefixed(cluster, n, b, a) then b else a;
      var csr := Csr("", [], [Uri("spiffe", SpiffeId(options.trustDomain, n, longer))], true, true);
      PassesExactly(options, cluster, csr, n, a);
      PassesExactly(options, cluster, csr, m, b);
    }
  }

  lemma ClaimsRelated(trustDomain: string, cluster: Cluster, text: string, n: string, a: string, m: string, b: string)
    requires '/' !in n && '/' !in m
    requires Claims(trustDomain, cluster, text, n, a) && Claims(trustDomain, cluster, text, m, b)
    ensures Related(cluster, n, a, m, b)
  {
    var x := if text == SpiffeId(trustDomain, n, a) then a else DomainAnnotation(cluster[n]) + "." + a;
    var y := if text == SpiffeId(trustDomain, m, b) then b else DomainAnnotation(cluster[m]) + "." + b;
    IdDetermines(trustDomain, n, x, m, y);
    if x != a && y != b {
      var prefix := DomainAnnotation(cluster[n]) + ".";
      assert a == (prefix + a)[|prefix|..] && b == (prefix + b)[|prefix|..];
    }
  }

  /** The slash-free precondition is needed: two namespaces can spell one ID. */
  lemma SlashesConfuse(trustDomain: string)
    ensures SpiffeId(trustDomain, "a/sa/b", "c") == SpiffeId(trustDomain, "a", "b/sa/c")
  {
  }

  // ---- The whole decision -----------------------------------------------------------------------------------

  lemma UsagesExactly(usages: seq<Usage>)
    ensures multiset(usages) == multiset(REQUIRED_USAGES) <==>
      && |usages| == 4
      && KeyEncipherment in usages && DigitalSignature in usages && ClientAuth in usages && ServerAuth in usages
  {
    var required := multiset(REQUIRED_USAGES);
    assert required == multiset{KeyEncipherment, DigitalSignature, ClientAuth, ServerAuth};
    assert |multiset(usages)| == |usages|;
    if |usages| == 4 && KeyEncipherment in usages && DigitalSignature in usages && ClientAuth in usages
      && ServerAuth in usages
    {
      assert required <= multiset(usages);
      assert |multiset(usages) - required| == 0;
      assert multiset(usages) == required + (multiset(usages) - required);
    }
    assert KeyEncipherment in required && DigitalSignature in required && ClientAuth in required
      && ServerAuth in required;
  }

  /** The annotation of a namespace, if it is there and says anything. */
  predicate Says(cluster: Cluster, namespace: string, domain: string) {
    && namespace in cluster && "athenz.io/domain" in cluster[namespace]
    && cluster[namespace]["athenz.io/domain"] == domain && domain != ""
  }

  /**
   Every request that is approved, and no other: well encoded, signed and extended, of the required
   duration, not for a CA, with exactly the four usages in any order, and with a SPIFFE ID that names the
   service account that made it, with or without its namespace's domain in front; under multi-tenancy the
   namespace must also be the account's domain, dashed, or have an annotation that says so.
   */
  lemma ApprovedExactly(options: Options, cluster: Cluster, req: Request, n: string, a: string)
    requires req.csr.Some? ==> |req.csr.value.uris| > 0
    requires ColonFree(n) && ColonFree(a) && req.username == "system:serviceaccount:" + n + ":" + a
    ensures Evaluate(options, cluster, req).None? <==>
      && req.csr.Some? && req.csr.value.signatureValid && req.csr.value.extensionsValid
      && req.duration == Some(options.duration)
      && !req.isCA
      && |req.usages| == 4
      && KeyEncipherment in req.usages && DigitalSignature in req.usages
      && ClientAuth in req.usages && ServerAuth in req.usages
      && req.csr.value.uris[0].scheme == "spiffe"
      && var id, place := req.csr.value.uris[0].text, "spiffe://" + options.trustDomain + "/ns/" + n + "/sa/";
         && (|| id == place + a
             || (n in cluster && "athenz.io/domain" !in cluster[n] && id == place + "." + a)
             || (n in cluster && "athenz.io/domain" in cluster[n]
                 && id == place + cluster[n]["athenz.io/domain"] + "." + a))
         && (options.multiTenancy ==>
              || n == GetDashedDomain(AccountDomain(a))
              || Says(cluster, n, AccountDomain(a))
              || exists domain :: Says(cluster, n, domain) && n == GetDashedDomain(domain))
  {
    UsagesExactly(req.usages);
    assert req.username == Username(n, a);
    if req.csr.Some? {
      PassesExactly(options, cluster, req.csr.value, n, a);
      ClaimsSpelt(options.trustDomain, cluster, req.csr.value.uris[0].text, n, a);
      TenancySpelt(options, cluster, n, a);
    }
  }

  lemma ClaimsSpelt(trustDomain: string, cluster: Cluster, id: string, n: string, a: string)
    ensures var place := "spiffe://" + trustDomain + "/ns/" + n + "/sa/";
      Claims(trustDomain, cluster, id, n, a) <==>
        || id == place + a
        || (n in cluster && "athenz.io/domain" !in cluster[n] && id == place + "." + a)
        || (n in cluster && "athenz.io/domain" in cluster[n] && id == place + cluster[n]["athenz.io/domain"] + "." + a)
  {
    var place := "spiffe://" + trustDomain + "/ns/" + n + "/sa/";
    assert SpiffeId(trustDomain, n, a) == place + a;
    if n in cluster {
      var domain := DomainAnnotation(cluster[n]);
      assert SpiffeId(trustDomain, n, domain + "." + a) == place + (domain + "." + a) == place + domain + "." + a;
      assert place + "" + "." + a == place + "." + a;
    }
  }

  lemma TenancySpelt(options: Options, cluster: Cluster, n: string, a: string)
    ensures TenancyHolds(options, cluster, n, a) <==>
      (options.multiTenancy ==>
        || n == GetDashedDomain(AccountDomain(a))
        || Says(cluster, n, AccountDomain(a))
        || exists domain :: Says(cluster, n, domain) && n == GetDashedDomain(domain))
  {
    if n in cluster && DomainAnnotation(cluster[n]) != "" {
      assert Says(cluster, n, DomainAnnotation(cluster[n]));
    }
  }

  /** Nobody who is not a service account has a request approved. */
  lemma ApprovedAccounts(options: Options, cluster: Cluster, req: Request)
    requires req.csr.Some? ==> |req.csr.value.uris| > 0
    requires Evaluate(options, cluster, req).None?
    ensures exists n, a :: ColonFree(n) && ColonFree(a) && req.username == "system:serviceaccount:" + n + ":" + a
  {
    OnlyAccountsPass(options, cluster, req.csr.value, req.username);
    var n, a :| ColonFree(n) && ColonFree(a) && req.username == Username(n, a);
    assert req.username == "system:serviceaccount:" + n + ":" + a;
  }

  // ---- Multi-tenancy --------------------------------------------------------------------------------------

  /** The namespace's own annotation speaks for the account, or for the namespace itself. */
  predicate Annotated(cluster: Cluster, namespace: string, domain: string) {
    namespace in cluster && var annotated := DomainAnnotation(cluster[namespace]);
      annotated != "" && (annotated == domain || GetDashedDomain(annotated) == namespace)
  }

  /**
   Without an annotation a namespace admits accounts of exactly one plain domain, the one its name
   decodes to; a namespace with a dot in its name admits none.
   */
  lemma UnannotatedTenant(cluster: Cluster, namespace: string, account: string)
    requires Plain(AccountDomain(account)) && !Annotated(cluster, namespace, AccountDomain(account))
    ensures ValidateIdentityDomain(cluster, namespace, account).None? <==>
      DotFree(namespace) && AccountDomain(account) == Undash(namespace)
  {
    DashedIsOnePass(AccountDomain(account));
    RoundTripExactly(AccountDomain(account));
    if DotFree(namespace) {
      DashUndash(namespace);
    }
  }
}
