/** What the driver asks for: the certificate request it builds for a pod's service account. */
module DriverRequests {
  import opened Prelude
  import opened Strings
  import opened DashedDomain
  import opened Approver

  const CLUSTER_ZONE := "cluster.local"
  const ATTR_POD_SUBDOMAIN := "csi.cert-manager.athenz.io/pod-subdomain"
  const ATTR_POD_HOSTNAME := "csi.cert-manager.athenz.io/pod-hostname"
  const ATTR_POD_SERVICE := "csi.cert-manager.athenz.io/pod-service"
  const ATTR_NS_FOR_DOMAIN := "csi.cert-manager.athenz.io/use-namespace-for-domain"

  datatype Config = Config(trustDomain: string, duration: int, dnsDomains: string, providerPrefix: string,
    cloudProvider: string, cloudRegion: string)

  /** What the service account token of the mounting pod says. */
  datatype Token = Token(namespace: string, account: string, podUid: string)

  type VolumeContext = map<string, string>

  datatype RequestError = NoToken | MissingNames | NoNamespace | NoDomain

  datatype Bundle = Bundle(csr: Csr, isCA: bool, namespace: string, duration: int, usages: seq<Usage>, identity: string)

  function Attribute(context: VolumeContext, name: string): string {
    if name in context then context[name] else ""
  }

  // ---- Names -----------------------------------------------------------------------------------------------

  /** `extractDomainService`. */
  function ExtractDomainService(account: string): (string, string) {
    var i := LastIndexOf(account, '.');
    if i == -1 then ("", "") else (account[..i], account[i + 1..])
  }

  /**
   The last dot separates domain and service, and the approver finds the same domain; of an account
   without a dot the approver takes the whole name.
   */
  lemma DomainServiceSplit(account: string)
    ensures var (domain, service) := ExtractDomainService(account);
      if '.' in account then domain + "." + service == account && '.' !in service && domain == AccountDomain(account)
      else domain == "" && service == "" && AccountDomain(account) == account
  {
  }

  /** The domain, the service, and the name the ID ends in. */
  datatype Names = Names(domain: string, service: string, subject: string)

  /** With the namespace asked for the domain, it comes from the namespace's annotation. */
  function NamesFor(cluster: Cluster, token: Token, context: VolumeContext): Result<Names, RequestError> {
    if Attribute(context, ATTR_NS_FOR_DOMAIN) == "true" then
      if token.namespace !in cluster then Failure(NoNamespace)
      else
        var domain := DomainAnnotation(cluster[token.namespace]);
        if domain == "" then Failure(RequestError.NoDomain)
        else Success(Names(domain, token.account, domain + "." + token.account))
    else
      var (domain, service) := ExtractDomainService(token.account);
      if domain == "" then Failure(RequestError.NoDomain) else Success(Names(domain, service, token.account))
  }

  // ---- Host names --------------------------------------------------------------------------------------------

  function AppendHostname(hosts: seq<string>, host: string): seq<string> {
    if host in hosts then hosts else hosts + [host]
  }

  function AthenzHost(service: string, domain: string, dnsDomain: string): string {
    service + "." + domain + "." + dnsDomain
  }

  function Wildcard(host: string): string {
    "*." + host
  }

  /** The Athenz host names for the first `k` DNS domains. */
  function AthenzHosts(service: string, domain: string, dnsDomains: seq<string>, k: nat): seq<string>
    requires k <= |dnsDomains|
  {
    if k == 0 then []
    else
      var host := AthenzHost(service, domain, dnsDomains[k - 1]);
      AppendHostname(AppendHostname(AthenzHosts(service, domain, dnsDomains, k - 1), host), Wildcard(host))
  }

  predicate NoDuplicates(hosts: seq<string>) {
    forall i, j | 0 <= i < j < |hosts| :: hosts[i] != hosts[j]
  }

  predicate IsAthenzHost(host: string, service: string, domain: string, dnsDomains: seq<string>, k: nat)
    requires k <= |dnsDomains|
  {
    exists i | 0 <= i < k ::
      var name := AthenzHost(service, domain, dnsDomains[i]);
      host == name || host == Wildcard(name)
  }

  /** The Athenz host names are exactly one plain and one wildcard name for each domain. */
  lemma {:induction false} AthenzHostsExactly(service: string, domain: string, dnsDomains: seq<string>, k: nat,
      host: string)
    requires k <= |dnsDomains|
    ensures host in AthenzHosts(service, domain, dnsDomains, k) <==> IsAthenzHost(host, service, domain, dnsDomains, k)
  {
    if k > 0 {
      AthenzHostsExactly(service, domain, dnsDomains, k - 1, host);
      var name := AthenzHost(service, domain, dnsDomains[k - 1]);
      AppendedHosts(AthenzHosts(service, domain, dnsDomains, k - 1), name, Wildcard(name));
      OneMoreDomain(host, service, domain, dnsDomains, k);
    }
  }

  lemma OneMoreDomain(host: string, service: string, domain: string, dnsDomains: seq<string>, k: nat)
    requires 0 < k <= |dnsDomains|
    ensures var name := AthenzHost(service, domain, dnsDomains[k - 1]);
      IsAthenzHost(host, service, domain, dnsDomains, k) <==>
        IsAthenzHost(host, service, domain, dnsDomains, k - 1) || host == name || host == Wildcard(name)
  {
  }

  lemma AppendedHosts(hosts: seq<string>, a: string, b: string)
    ensures var r := AppendHostname(AppendHostname(hosts, a), b);
      && (forall host :: host in r <==> host in hosts || host == a || host == b)
      && (NoDuplicates(hosts) ==> NoDuplicates(r))
  {
  }

  /** None of them is there twice, even if a DNS domain is. */
  lemma {:induction false} AthenzHostsOnce(service: string, domain: string, dnsDomains: seq<string>, k: nat)
    requires k <= |dnsDomains|
    ensures NoDuplicates(AthenzHosts(service, domain, dnsDomains, k))
  {
    if k > 0 {
      AthenzHostsOnce(service, domain, dnsDomains, k - 1);
      var name := AthenzHost(service, domain, dnsDomains[k - 1]);
      AppendedHosts(AthenzHosts(service, domain, dnsDomains, k - 1), name, Wildcard(name));
    }
  }

  /** The pod's own names in the cluster zone; these are appended without looking for duplicates. */
  function PodHosts(token: Token, context: VolumeContext, service: string): seq<string> {
    var hostname := Attribute(context, ATTR_POD_HOSTNAME);
    var subdomain := Attribute(context, ATTR_POD_SUBDOMAIN);
    var asked := Attribute(context, ATTR_POD_SERVICE);
    var podService := if asked == "" then service else asked;
    var below := if subdomain == "" then "" else "." + subdomain;
    (if hostname == "" then [] else [hostname + below + "." + token.namespace + ".svc." + CLUSTER_ZONE])
    + (if podService == "" then []
       else [podService + "." + token.namespace + ".svc." + CLUSTER_ZONE, podService + "." + token.namespace + ".svc"])
  }

  function DnsDomains(config: Config): seq<string> {
    if config.dnsDomains == "" then [] else Split(config.dnsDomains, ',')
  }

  function HostList(config: Config, token: Token, context: VolumeContext, names: Names): seq<string> {
    var domains := DnsDomains(config);
    AthenzHosts(names.service, ReplaceAll(names.domain, '.', "-"), domains, |domains|)
    + PodHosts(token, context, names.service)
  }

  // ---- The request -------------------------------------------------------------------------------------------

  function InstanceUri(config: Config, token: Token): Uri {
    Uri("athenz", "athenz://instanceid/" + config.providerPrefix + "." + config.cloudProvider + "-" + config.cloudRegion
      + "/" + token.podUid)
  }

  /** The request for a pod whose names are known. */
  function BundleFor(config: Config, token: Token, context: VolumeContext, names: Names): Bundle {
    var id := SpiffeId(config.trustDomain, token.namespace, names.subject);
    Bundle(
      Csr(names.subject, HostList(config, token, context, names), [Uri("spiffe", id), InstanceUri(config, token)],
        true, true),
      false, token.namespace, config.duration, [DigitalSignature, KeyEncipherment, ServerAuth, ClientAuth], id)
  }

  /** `generateRequest` as a whole; `token` is what the volume's metadata holds, if it can be read. */
  function RequestFor(config: Config, cluster: Cluster, token: Option<Token>, context: VolumeContext)
    : Result<Bundle, RequestError>
  {
    if token.None? then Failure(NoToken)
    else if token.value.account == "" || token.value.namespace == "" then Failure(MissingNames)
    else
      var names :- NamesFor(cluster, token.value, context);
      Success(BundleFor(config, token.value, context, names))
  }

  // ---- The request, spelt out ----------------------------------------------------------------------------------

  /** The value of an attribute; one that is not there says nothing. */
  predicate Holds(context: VolumeContext, name: string, value: string) {
    if name in context then context[name] == value else value == ""
  }

  /** Where the names come from: the annotation of the namespace if that is asked for, else the account's dots. */
  predicate NamedBy(cluster: Cluster, token: Token, context: VolumeContext, names: Names) {
    && names.domain != ""
    && if Holds(context, "csi.cert-manager.athenz.io/use-namespace-for-domain", "true") then
         && token.namespace in cluster && "athenz.io/domain" in cluster[token.namespace]
         && names.domain == cluster[token.namespace]["athenz.io/domain"]
         && names.service == token.account && names.subject == names.domain + "." + token.account
       else
         && token.account == names.domain + "." + names.service && '.' !in names.service
         && names.subject == token.account
  }

  lemma LastDot(domain: string, service: string)
    requires '.' !in service
    ensures ExtractDomainService(domain + "." + service) == (domain, service)
  {
    var account := domain + "." + service;
    var i := LastIndexOf(account, '.');
    assert account[|domain|] == '.';
    assert account[|domain| + 1..] == service && account[..|domain|] == domain;
    assert forall k | |domain| < k < |account| :: account[k] == service[k - |domain| - 1];
    assert forall k | i < k < |account| :: account[k] in account[i + 1..];
  }

  lemma NamedByExactly(cluster: Cluster, token: Token, context: VolumeContext, names: Names)
    ensures NamedBy(cluster, token, context, names) <==> NamesFor(cluster, token, context) == Success(names)
  {
    DomainServiceSplit(token.account);
    if '.' !in names.service {
      LastDot(names.domain, names.service);
    }
    assert Holds(context, "csi.cert-manager.athenz.io/use-namespace-for-domain", "true") <==>
      Attribute(context, ATTR_NS_FOR_DOMAIN) == "true";
  }

  /**
   Exactly when there is a request: the token names an account and a namespace, and a domain is found; then
   the names in it are determined.
   */
  lemma RequestedExactly(config: Config, cluster: Cluster, token: Option<Token>, context: VolumeContext)
    ensures RequestFor(config, cluster, token, context).Success? <==>
      && token.Some? && token.value.account != "" && token.value.namespace != ""
      && exists names :: NamedBy(cluster, token.value, context, names)
  {
    if token.Some? {
      var found := NamesFor(cluster, token.value, context);
      if found.Success? {
        NamedByExactly(cluster, token.value, context, found.value);
      }
      forall names | NamedBy(cluster, token.value, context, names)
        ensures found.Success?
      {
        NamedByExactly(cluster, token.value, context, names);
      }
    }
  }

  /** What a request asks for besides its host names. */
  lemma RequestSpelt(config: Config, cluster: Cluster, token: Token, context: VolumeContext, names: Names,
      bundle: Bundle)
    requires RequestFor(config, cluster, Some(token), context) == Success(bundle)
    requires NamedBy(cluster, token, context, names)
    ensures var id := "spiffe://" + config.trustDomain + "/ns/" + token.namespace + "/sa/" + names.subject;
      && bundle.identity == id
      && |bundle.csr.uris| == 2 && bundle.csr.uris[0] == Uri("spiffe", id)
    ensures bundle.csr.uris[1] == Uri("athenz", "athenz://instanceid/"
      + config.providerPrefix + "." + config.cloudProvider + "-" + config.cloudRegion + "/" + token.podUid)
    ensures bundle.csr.commonName == names.subject
    ensures !bundle.isCA && bundle.namespace == token.namespace && bundle.duration == config.duration
    ensures |bundle.usages| == 4 && KeyEncipherment in bundle.usages && DigitalSignature in bundle.usages
      && ClientAuth in bundle.usages && ServerAuth in bundle.usages
  {
    NamedByExactly(cluster, token, context, names);
    InstanceUriSpelt(config, token);
    assert bundle.usages[0] == DigitalSignature && bundle.usages[1] == KeyEncipherment
      && bundle.usages[2] == ServerAuth && bundle.usages[3] == ClientAuth;
  }

  lemma InstanceUriSpelt(config: Config, token: Token)
    ensures InstanceUri(config, token).text == "athenz://instanceid/"
      + config.providerPrefix + "." + config.cloudProvider + "-" + config.cloudRegion + "/" + token.podUid
  {
  }

  /**
   Which host names a request asks for: one plain and one wildcard name for each DNS domain, the pod's own
   name if it has one, and its service's two names in the cluster zone.
   */
  lemma HostsExactly(config: Config, cluster: Cluster, token: Token, context: VolumeContext, names: Names,
      bundle: Bundle, hostname: string, subdomain: string, podService: string, host: string)
    requires RequestFor(config, cluster, Some(token), context) == Success(bundle)
    requires NamedBy(cluster, token, context, names)
    requires Holds(context, "csi.cert-manager.athenz.io/pod-hostname", hostname)
    requires Holds(context, "csi.cert-manager.athenz.io/pod-subdomain", subdomain)
    requires Holds(context, "csi.cert-manager.athenz.io/pod-service", podService)
    ensures var athenz := names.service + "." + ReplaceAll(names.domain, '.', "-") + ".";
      var service := if podService == "" then names.service else podService;
      host in bundle.csr.dnsNames <==>
        || (config.dnsDomains != ""
            && exists d <- Split(config.dnsDomains, ',') :: host == athenz + d || host == "*." + (athenz + d))
        || (hostname != "" && subdomain == "" && host == hostname + "." + token.namespace + ".svc.cluster.local")
        || (hostname != "" && subdomain != ""
            && host == hostname + "." + subdomain + "." + token.namespace + ".svc.cluster.local")
        || (service != "" && host == service + "." + token.namespace + ".svc.cluster.local")
        || (service != "" && host == service + "." + token.namespace + ".svc")
  {
    NamedByExactly(cluster, token, context, names);
    var domains, hyphenated := DnsDomains(config), ReplaceAll(names.domain, '.', "-");
    AthenzHostsExactly(names.service, hyphenated, domains, |domains|, host);
    AthenzHostSpelt(config, names.service, hyphenated, host);
    PodHostsSpelt(token, context, names.service, hostname, subdomain, podService, host);
  }

  lemma AthenzHostSpelt(config: Config, service: string, domain: string, host: string)
    ensures var domains, athenz := DnsDomains(config), service + "." + domain + ".";
      IsAthenzHost(host, service, domain, domains, |domains|) <==>
        config.dnsDomains != ""
        && exists d <- Split(config.dnsDomains, ',') :: host == athenz + d || host == "*." + (athenz + d)
  {
    var domains, athenz := DnsDomains(config), service + "." + domain + ".";
    if IsAthenzHost(host, service, domain, domains, |domains|) {
      var i :| 0 <= i < |domains|
        && var name := AthenzHost(service, domain, domains[i]); host == name || host == Wildcard(name);
      assert domains[i] in Split(config.dnsDomains, ',');
    }
    if config.dnsDomains != "" {
      if d :| d in Split(config.dnsDomains, ',') && (host == athenz + d || host == "*." + (athenz + d)) {
        var i :| 0 <= i < |domains| && domains[i] == d;
        assert AthenzHost(service, domain, domains[i]) == athenz + d;
      }
    }
  }

  lemma PodHostsSpelt(token: Token, context: VolumeContext, service: string, hostname: string, subdomain: string,
      podService: string, host: string)
    requires Holds(context, "csi.cert-manager.athenz.io/pod-hostname", hostname)
    requires Holds(context, "csi.cert-manager.athenz.io/pod-subdomain", subdomain)
    requires Holds(context, "csi.cert-manager.athenz.io/pod-service", podService)
    ensures var s := if podService == "" then service else podService;
      host in PodHosts(token, context, service) <==>
        || (hostname != "" && subdomain == "" && host == hostname + "." + token.namespace + ".svc.cluster.local")
        || (hostname != "" && subdomain != ""
            && host == hostname + "." + subdomain + "." + token.namespace + ".svc.cluster.local")
        || (s != "" && host == s + "." + token.namespace + ".svc.cluster.local")
        || (s != "" && host == s + "." + token.namespace + ".svc")
  {
    assert hostname + ("." + subdomain) + "." == hostname + "." + subdomain + ".";
    assert hostname + "" + "." == hostname + ".";
    Zone(hostname + "." + subdomain, token.namespace);
    Zone(hostname, token.namespace);
    Zone(if podService == "" then service else podService, token.namespace);
  }

  lemma Zone(name: string, namespace: string)
    ensures name + "." + namespace + ".svc." + CLUSTER_ZONE == name + "." + namespace + ".svc.cluster.local"
  {
    assert ".svc." + CLUSTER_ZONE == ".svc.cluster.local";
  }

  method CollectAthenzHosts(config: Config, service: string, domain: string) returns (hosts: seq<string>)
    ensures hosts == AthenzHosts(service, domain, DnsDomains(config), |DnsDomains(config)|)
  {
    hosts := [];
    var domains := DnsDomains(config);
    for k := 0 to |domains|
      invariant hosts == AthenzHosts(service, domain, domains, k)
    {
      var host := AthenzHost(service, domain, domains[k]);
      hosts := AppendUnlessPresent(hosts, host);
      hosts := AppendUnlessPresent(hosts, Wildcard(host));
    }
  }

  /** `appendHostname`. */
  method AppendUnlessPresent(hosts: seq<string>, host: string) returns (r: seq<string>)
    ensures r == AppendHostname(hosts, host)
    ensures hosts <= r && host in r && (NoDuplicates(hosts) ==> NoDuplicates(r))
  {
    for k := 0 to |hosts|
      invariant host !in hosts[..k]
    {
      if hosts[k] == host {
        return hosts;
      }
    }
    assert hosts[..|hosts|] == hosts;
    r := hosts + [host];
  }

  /** `generateRequest`. */
  method GenerateRequest(config: Config, cluster: Cluster, token: Option<Token>, context: VolumeContext)
    returns (r: Result<Bundle, RequestError>)
    ensures r == RequestFor(config, cluster, token, context)
    ensures r.Success? ==> r.value.identity == r.value.csr.uris[0].text
  {
    if token.None? {
      return Failure(NoToken);
    }
    var account, namespace := token.value.account, token.value.namespace;
    if account == "" || namespace == "" {
      return Failure(MissingNames);
    }
    var spiffeId := SpiffeId(config.trustDomain, namespace, account);
    var commonName := account;
    var (domain, service) := ExtractDomainService(account);
    if Attribute(context, ATTR_NS_FOR_DOMAIN) == "true" {
      if namespace !in cluster {
        return Failure(NoNamespace);
      }
      domain := DomainAnnotation(cluster[namespace]);
      spiffeId := SpiffeId(config.trustDomain, namespace, domain + "." + account);
      commonName := domain + "." + account;
      service := account;
    }
    if domain == "" {
      return Failure(RequestError.NoDomain);
    }
    var hostList := CollectAthenzHosts(config, service, ReplaceAll(domain, '.', "-"));
    hostList := hostList + PodHosts(token.value, context, service);
    var uris := [Uri("spiffe", spiffeId), InstanceUri(config, token.value)];
    var csr := Csr(commonName, hostList, uris, true, true);
    assert NamesFor(cluster, token.value, context) == Success(Names(domain, service, commonName));
    r := Success(Bundle(csr, false, namespace, config.duration,
      [DigitalSignature, KeyEncipherment, ServerAuth, ClientAuth], spiffeId));
  }

  // ---- Producer and consumer -----------------------------------------------------------------------------------

  /** The CertificateRequest made from a bundle by the impersonated service account. */
  function Submitted(bundle: Bundle, token: Token): Request {
    Request(Some(bundle.csr), Some(bundle.duration), bundle.isCA, bundle.usages,
      Username(token.namespace, token.account))
  }

  /** How the two processes have to be configured. */
  predicate Agree(config: Config, options: Options) {
    config.trustDomain == options.trustDomain && config.duration == options.duration
  }

  /**
   The driver's requests are approved, on both ways of finding the domain: always without
   multi-tenancy, and with it exactly when the account's domain or the namespace's annotation allows.
   */
  lemma DriverRequestApproved(config: Config, options: Options, cluster: Cluster, token: Token, context: VolumeContext,
      bundle: Bundle)
    requires Agree(config, options) && ColonFree(token.namespace) && ColonFree(token.account)
    requires RequestFor(config, cluster, Some(token), context) == Success(bundle)
    ensures |bundle.csr.uris| > 0
    ensures Evaluate(options, cluster, Submitted(bundle, token)).None? <==>
      (options.multiTenancy ==>
        || token.namespace == GetDashedDomain(AccountDomain(token.account))
        || Annotated(cluster, token.namespace, AccountDomain(token.account)))
  {
    BundleIsDue(config, options, cluster, token, NamesFor(cluster, token, context).value, bundle);
    NamesClaim(config.trustDomain, cluster, token, context);
    TenancyAllows(cluster, token.namespace, token.account);
  }

  /** Whichever way the driver finds the domain, it is one of the two the account may claim. */
  lemma NamesClaim(trustDomain: string, cluster: Cluster, token: Token, context: VolumeContext)
    requires NamesFor(cluster, token, context).Success?
    ensures Claims(trustDomain, cluster,
      SpiffeId(trustDomain, token.namespace, NamesFor(cluster, token, context).value.subject),
      token.namespace, token.account)
  {
  }

  /** All but the identity of a request is as the approver requires. */
  lemma BundleIsDue(config: Config, options: Options, cluster: Cluster, token: Token, names: Names, bundle: Bundle)
    requires Agree(config, options) && ColonFree(token.namespace) && ColonFree(token.account)
    requires IsBundle(config, token, names, bundle)
    ensures Evaluate(options, cluster, Submitted(bundle, token)).None? <==>
      && Claims(options.trustDomain, cluster, bundle.identity, token.namespace, token.account)
      && (options.multiTenancy ==> ValidateIdentityDomain(cluster, token.namespace, token.account).None?)
  {
    UsagesMatch();
    PassesExactly(options, cluster, bundle.csr, token.namespace, token.account);
  }

  /** The same usages in another order. */
  lemma UsagesMatch()
    ensures multiset([DigitalSignature, KeyEncipherment, ServerAuth, ClientAuth]) == multiset(REQUIRED_USAGES)
  {
  }

  /** What a bundle for these names has to be, apart from its host names. */
  predicate IsBundle(config: Config, token: Token, names: Names, bundle: Bundle) {
    && bundle.identity == SpiffeId(config.trustDomain, token.namespace, names.subject)
    && bundle.csr.uris == [Uri("spiffe", bundle.identity), InstanceUri(config, token)]
    && bundle.csr.commonName == names.subject && bundle.csr.signatureValid && bundle.csr.extensionsValid
    && !bundle.isCA && bundle.namespace == token.namespace && bundle.duration == config.duration
    && bundle.usages == [DigitalSignature, KeyEncipherment, ServerAuth, ClientAuth]
  }

  lemma TenancyAllows(cluster: Cluster, namespace: string, account: string)
    ensures ValidateIdentityDomain(cluster, namespace, account).None? <==>
      namespace == GetDashedDomain(AccountDomain(account)) || Annotated(cluster, namespace, AccountDomain(account))
  {
  }

  /** The driver asks for this ID for some volume of the account. */
  ghost predicate AskedFor(config: Config, cluster: Cluster, token: Token, text: string) {
    exists context: VolumeContext ::
      && RequestFor(config, cluster, Some(token), context).Success?
      && RequestFor(config, cluster, Some(token), context).value.identity == text
  }

  /** Of the IDs an account may claim, the driver asks for exactly those that name a domain. */
  lemma AskedForExactly(config: Config, cluster: Cluster, token: Token, text: string)
    requires token.account != "" && token.namespace != ""
    ensures AskedFor(config, cluster, token, text) <==>
      || (text == SpiffeId(config.trustDomain, token.namespace, token.account)
          && ExtractDomainService(token.account).0 != "")
      || (token.namespace in cluster && DomainAnnotation(cluster[token.namespace]) != ""
          && text == SpiffeId(config.trustDomain, token.namespace,
               DomainAnnotation(cluster[token.namespace]) + "." + token.account))
    ensures AskedFor(config, cluster, token, text) ==>
      Claims(config.trustDomain, cluster, text, token.namespace, token.account)
  {
    var plain: VolumeContext, asking: VolumeContext := map[], map[ATTR_NS_FOR_DOMAIN := "true"];
    var byAccount := RequestFor(config, cluster, Some(token), plain);
    var byNamespace := RequestFor(config, cluster, Some(token), asking);
    assert byAccount.Success? <==> ExtractDomainService(token.account).0 != "";
    assert Attribute(asking, ATTR_NS_FOR_DOMAIN) == "true";
  }
}
