/** The decision to bind a credential Secret, and the one guarded write: `inventory`,
    `object_target`, `check_secret`, `plan` and `main` of `scripts/bind-credential.py`. */
module BindGuard {
  import opened Basics
  import opened Whitespace
  import opened CredentialForms

  // ---- what the tool reads -------------------------------------------------------

  datatype Spec =
    | Kafka(kafka: KafkaSpec)
    | Destination(route: S3Route)
    | Retention(destination: string, scope: string)

  /** An object of a kind that binds to its UID, and the Secrets its spec names. */
  datatype Object = Object(uid: string, spec: Spec, secrets: set<string>, published: string)

  /** A listed object of any kind: the Secrets it names and, inline, its archive URL. */
  datatype Item = Item(name: string, secrets: set<string>, url: Option<string>)

  datatype Secret = Secret(version: string, owners: seq<string>, mintedFor: map<string, string>, binding: string)

  datatype Cluster = Cluster(listing: map<string, seq<Item>>, objects: map<(string, string), Object>,
                             secrets: map<string, Secret>)

  /** Every kind that can name a credential Secret; false when it binds to the object, true inline. */
  const INVENTORY: seq<(string, bool)> :=
    [("KafkaCluster", false), ("BackupDestination", false), ("RetentionPolicy", false), ("Backup", true),
     ("BackupSchedule", true), ("Restore", true), ("RecoveryCatalog", true), ("Preflight", true)]

  datatype Reference = Reference(kind: string, name: string, inline: bool, url: Option<string>)

  // ---- the inventory ----------------------------------------------------------------

  function ItemsOf(c: Cluster, kind: string): seq<Item> { if kind in c.listing then c.listing[kind] else [] }

  function Naming(items: seq<Item>, kind: string, inline: bool, secret: string): seq<Reference> {
    if items == [] then []
    else
      var before, item := Naming(items[..|items| - 1], kind, inline, secret), items[|items| - 1];
      if secret in item.secrets then before + [Reference(kind, item.name, inline, item.url)] else before
  }

  function InventoryOf(c: Cluster, secret: string, n: nat): seq<Reference>
    requires n <= |INVENTORY|
  {
    if n == 0 then []
    else
      InventoryOf(c, secret, n - 1)
      + Naming(ItemsOf(c, INVENTORY[n - 1].0), INVENTORY[n - 1].0, INVENTORY[n - 1].1, secret)
  }

  /** `inventory`: every listed object that names the Secret. */
  method Inventory(c: Cluster, secret: string) returns (found: seq<Reference>)
    ensures found == InventoryOf(c, secret, |INVENTORY|)
  {
    found := [];
    for n := 0 to |INVENTORY|
      invariant found == InventoryOf(c, secret, n)
    {
      var (kind, inline) := INVENTORY[n];
      var items := ItemsOf(c, kind);
      ghost var before := found;
      assert before + [] == before;
      for i := 0 to |items|
        invariant found == before + Naming(items[..i], kind, inline, secret)
      {
        assert items[..i + 1][..i] == items[..i];
        if secret in items[i].secrets {
          found := found + [Reference(kind, items[i].name, inline, items[i].url)];
        }
      }
      assert items[..|items|] == items;
    }
  }

  lemma {:induction false} NamingHolds(items: seq<Item>, kind: string, inline: bool, secret: string, r: Reference)
    ensures r in Naming(items, kind, inline, secret)
            <==> exists i :: 0 <= i < |items| && secret in items[i].secrets
                             && r == Reference(kind, items[i].name, inline, items[i].url)
  {
    if items != [] {
      NamingHolds(items[..|items| - 1], kind, inline, secret, r);
    }
  }

  /** The inventory misses no reference of any listed kind and invents none. */
  lemma {:induction false} InventoryHolds(c: Cluster, secret: string, n: nat, r: Reference)
    requires n <= |INVENTORY|
    ensures r in InventoryOf(c, secret, n)
            <==> exists k, i :: 0 <= k < n && 0 <= i < |ItemsOf(c, INVENTORY[k].0)|
                   && secret in ItemsOf(c, INVENTORY[k].0)[i].secrets
                   && r == Reference(INVENTORY[k].0, ItemsOf(c, INVENTORY[k].0)[i].name, INVENTORY[k].1,
                                     ItemsOf(c, INVENTORY[k].0)[i].url)
  {
    if n > 0 {
      InventoryHolds(c, secret, n - 1, r);
      NamingHolds(ItemsOf(c, INVENTORY[n - 1].0), INVENTORY[n - 1].0, INVENTORY[n - 1].1, secret, r);
    }
  }

  // ---- locations -----------------------------------------------------------------------

  predicate Separates(url: string, i: nat) {
    i + 3 <= |url| && url[i] == ':' && url[i + 1] == '/' && url[i + 2] == '/'
  }

  /** The index of the first `://` from `i` on. */
  function SchemeEnd(url: string, i: nat): (r: Option<nat>)
    ensures r.Some? ==> i <= r.value && Separates(url, r.value)
    decreases |url| - i
  {
    if i >= |url| then None else if Separates(url, i) then Some(i) else SchemeEnd(url, i + 1)
  }

  function WithoutLeadingSlashes(s: string): string {
    if s != "" && s[0] == '/' then WithoutLeadingSlashes(s[1..]) else s
  }

  function UpToSlash(s: string): string {
    if s == "" || s[0] == '/' then "" else [s[0]] + UpToSlash(s[1..])
  }

  function PastSlash(s: string): string {
    if s == "" then "" else if s[0] == '/' then s[1..] else PastSlash(s[1..])
  }

  /** A URL's scheme, its first path segment and what follows it. */
  datatype Location = Location(scheme: string, first: string, tail: string)

  function ParseUrl(url: string): Option<Location> {
    match SchemeEnd(url, 0)
    case None => None
    case Some(i) =>
      var rest := WithoutSlashes(WithoutLeadingSlashes(url[i + 3..]));
      Some(Location(url[..i], UpToSlash(rest), PastSlash(rest)))
  }

  function BucketOf(url: Option<string>): Option<string> {
    if OrEmpty(url) == "" then None
    else
      match ParseUrl(url.value)
      case None => None
      case Some(l) => Some(l.scheme + "://" + l.first)
  }

  predicate IsRegion(region: string) {
    0 < |region| <= 32
    && forall i :: 0 <= i < |region| ==> 'a' <= region[i] <= 'z' || '0' <= region[i] <= '9' || region[i] == '-'
  }

  // ---- deciding --------------------------------------------------------------------------

  datatype Refusal =
    | NoSuchObject | NoUid | NoDestination | NotNamed | AlsoNamed | NotPublished | OtherPublished
    | BadRegion | NotAUrl | OtherScheme | NamedByObject | OtherBucket
    | NoSuchSecret | OwnedByAnother | MintedForAnother | OtherBinding

  datatype Bound =
    | ToObject(kind: string, name: string)
    | ToLocation(url: string, endpoint: string, region: string, pathStyle: bool, allowHttp: bool)

  datatype Target = Target(uid: string, canonical: string, endpoint: string)

  datatype Decision =
    | Planned(binding: string, endpoint: string, version: string)
    | AlreadyBound
    | Refused(reason: Refusal)

  function Where(r: S3Route): string {
    (if OrEmpty(r.endpoint) == "" then "aws" else r.endpoint.value) + " bucket=" + r.bucket
    + " region=" + (if OrEmpty(r.region) == "" then "none" else r.region.value)
  }

  /** The form computed from the object's own `metadata.uid` and `spec`, never from its status. */
  function ObjectTarget(c: Cluster, o: Object): Result<Target, Refusal> {
    if o.uid == "" then Err(NoUid)
    else
      match o.spec
      case Kafka(kafka) => Ok(Target(o.uid, HEADER + Rows(KafkaRows(o.uid, kafka)), Join(",", kafka.servers)))
      case Destination(route) => Ok(Target(o.uid, DestinationForm(o.uid, route), Where(route)))
      case Retention(name, scope) =>
        if ("BackupDestination", name) in c.objects && c.objects[("BackupDestination", name)].spec.Destination? then
          var route := c.objects[("BackupDestination", name)].spec.route;
          Ok(Target(o.uid, RetentionForm(o.uid, route, scope), Where(route) + " scope=" + scope))
        else Err(NoDestination)
  }

  function LocationForm(b: Bound): Result<string, Refusal>
    requires b.ToLocation?
  {
    match ParseUrl(b.url)
    case None => Err(NotAUrl)
    case Some(l) =>
      if l.scheme == "s3" then
        Ok(LocationText(S3Archive(S3Route(l.first, l.tail, if b.region == "none" then None else Some(b.region),
                                          if b.endpoint == "" || b.endpoint == "aws" then None else Some(b.endpoint),
                                          b.pathStyle, b.allowHttp))))
      else if l.scheme == "gs" then
        Ok(LocationText(GsArchive(l.first)))
      else if l.scheme == "az" then
        Ok(LocationText(AzArchive(l.first, UpToSlash(l.tail))))
      else Err(OtherScheme)
  }

  function LocationEndpoint(b: Bound): string
    requires b.ToLocation?
  {
    match ParseUrl(b.url)
    case Some(l) =>
      if l.scheme == "s3" then
        Where(S3Route(l.first, l.tail, if b.region == "none" then None else Some(b.region),
                      if b.endpoint == "" || b.endpoint == "aws" then None else Some(b.endpoint),
                      b.pathStyle, b.allowHttp))
        + " pathStyle=" + Flag(b.pathStyle) + " allowHttp=" + Flag(b.allowHttp)
      else (if b.endpoint == "" then "aws" else b.endpoint) + " bucket=" + l.scheme + "://" + l.first
    case None => ""
  }

  // The tests, by name.

  /** No object but the named one names the Secret. */
  predicate NamedByNoOther(refs: seq<Reference>, kind: string, name: string) {
    forall i :: 0 <= i < |refs| ==> refs[i].kind == kind && refs[i].name == name
  }

  predicate NamedInlineOnly(refs: seq<Reference>) { forall i :: 0 <= i < |refs| ==> refs[i].inline }

  predicate NamedAtOneBucket(refs: seq<Reference>, url: string) {
    forall i :: 0 <= i < |refs| ==> BucketOf(refs[i].url) == None || BucketOf(refs[i].url) == BucketOf(Some(url))
  }

  predicate IsPublished(published: string) {
    |published| >= 3 && published[0] == 'v' && published[1] == '1' && published[2] == ':'
  }

  /** Owned by nobody, or also by the target object. */
  predicate OwnerFits(s: Secret, uid: Option<string>) {
    s.owners == [] || (uid.Some? && uid.value in s.owners)
  }

  const CREDENTIAL_FOR: string := "logweir.dev/credential-for"
  const CONNECTION: string := "logweir.dev/connection"

  predicate LabelFits(s: Secret, mark: string, kind: string, b: Bound) {
    mark in s.mintedFor ==> b.ToObject? && b.kind == kind && b.name == s.mintedFor[mark]
  }

  predicate MintFits(s: Secret, b: Bound) {
    LabelFits(s, CREDENTIAL_FOR, "BackupDestination", b) && LabelFits(s, CONNECTION, "KafkaCluster", b)
  }

  predicate IsSeparator(c: char) { c == ',' || IsSpace(c) }

  /** The words of a binding value; commas separate them as spaces do. */
  function Words(s: string, word: string): seq<string> {
    if s == "" then (if word == "" then [] else [word])
    else if IsSeparator(s[0]) then (if word == "" then [] else [word]) + Words(s[1..], "")
    else Words(s[1..], word + [s[0]])
  }

  /** `check_secret`, and the test of the binding the Secret already carries. */
  function DecideSecret(c: Cluster, secret: string, b: Bound, uid: Option<string>, binding: string,
                        endpoint: string): Decision {
    if secret !in c.secrets then Refused(NoSuchSecret)
    else
      var s := c.secrets[secret];
      if !OwnerFits(s, uid) then Refused(OwnedByAnother)
      else if !MintFits(s, b) then Refused(MintedForAnother)
      else if Strip(s.binding) == "" then Planned(binding, endpoint, s.version)
      else if binding in Words(Strip(s.binding), "") then AlreadyBound
      else Refused(OtherBinding)
  }

  /** `plan`: the first test that fails decides. */
  function Decide(digest: string -> string, c: Cluster, secret: string, b: Bound): Decision {
    var refs := InventoryOf(c, secret, |INVENTORY|);
    match b
    case ToLocation(url, endpoint, region, pathStyle, allowHttp) =>
      if ParseUrl(url).Some? && ParseUrl(url).value.scheme == "s3" && region != "none" && !IsRegion(region)
      then Refused(BadRegion)
      else
        (match LocationForm(b)
         case Err(reason) => Refused(reason)
         case Ok(canonical) =>
           if !NamedInlineOnly(refs) then Refused(NamedByObject)
           else if !NamedAtOneBucket(refs, url) then Refused(OtherBucket)
           else DecideSecret(c, secret, b, None, Binding(digest, "location", canonical), LocationEndpoint(b)))
    case ToObject(kind, name) =>
      if (kind, name) !in c.objects then Refused(NoSuchObject)
      else
        var o := c.objects[(kind, name)];
        match ObjectTarget(c, o)
        case Err(reason) => Refused(reason)
        case Ok(t) =>
          var binding := Binding(digest, t.uid, t.canonical);
          if secret !in o.secrets then Refused(NotNamed)
          else if !NamedByNoOther(refs, kind, name) then Refused(AlsoNamed)
          else if !IsPublished(o.published) then Refused(NotPublished)
          else if o.published != binding then Refused(OtherPublished)
          else DecideSecret(c, secret, b, Some(t.uid), binding, t.endpoint)
  }

  // ---- the run ------------------------------------------------------------------------------

  datatype Write = Write(secret: string, binding: string)

  /** The seam to the cluster: it is read as one snapshot, and written by a patch that the API server
      refuses unless the Secret still has the version that was read. */
  class Kubectl {
    var cluster: Cluster
    var writes: seq<Write>

    constructor (cluster: Cluster)
      ensures this.cluster == cluster && writes == []
    {
      this.cluster := cluster;
      this.writes := [];
    }

    /** What other clients do to the Secrets between this tool's reads and its patch. */
    method Elapse(meanwhile: map<string, Secret>)
      modifies this`cluster
      ensures cluster == old(cluster).(secrets := meanwhile)
    {
      cluster := cluster.(secrets := meanwhile);
    }

    /** `patch_secret`, conditional on the version read; the server gives the Secret a new version. */
    method PatchSecret(name: string, version: string, binding: string, newVersion: string) returns (ok: bool)
      modifies this
      ensures ok <==> name in old(cluster).secrets && old(cluster).secrets[name].version == version
      ensures ok ==> writes == old(writes) + [Write(name, binding)]
      ensures ok ==>
                cluster == old(cluster).(secrets := old(cluster).secrets[name :=
                  old(cluster).secrets[name].(binding := binding, version := newVersion)])
      ensures !ok ==> writes == old(writes) && cluster == old(cluster)
    {
      ok := name in cluster.secrets && cluster.secrets[name].version == version;
      if ok {
        cluster := cluster.(secrets := cluster.secrets[name :=
          cluster.secrets[name].(binding := binding, version := newVersion)]);
        writes := writes + [Write(name, binding)];
      }
    }
  }

  datatype Args = Args(bound: Bound, secret: string, apply: bool, confirmEndpoint: Option<string>)

  datatype Exit = ExitOk | ExitFailed | ExitRefused

  /** What a run returns and writes, given what it read and what the Secrets were at its patch. */
  function Outcome(decision: Decision, args: Args, meanwhile: map<string, Secret>): (Exit, seq<Write>) {
    match decision
    case AlreadyBound => (ExitOk, [])
    case Refused(_) => (ExitRefused, [])
    case Planned(binding, endpoint, version) =>
      if !args.apply then (ExitOk, [])
      else if args.confirmEndpoint != Some(endpoint) then (ExitRefused, [])
      else if args.secret in meanwhile && meanwhile[args.secret].version == version
      then (ExitOk, [Write(args.secret, binding)])
      else (ExitFailed, [])
  }

  /** The cluster after a run: untouched unless the patch is reached, and then changed by other clients and at most in
      the one Secret's binding and version. */
  function ClusterAfter(decision: Decision, args: Args, meanwhile: map<string, Secret>, newVersion: string,
                        c: Cluster): Cluster {
    match decision
    case Planned(binding, endpoint, version) =>
      if !args.apply || args.confirmEndpoint != Some(endpoint) then c
      else if args.secret in meanwhile && meanwhile[args.secret].version == version
      then c.(secrets := meanwhile[args.secret := meanwhile[args.secret].(binding := binding, version := newVersion)])
      else c.(secrets := meanwhile)
    case _ => c
  }

  /** `plan`, with the inventory taken first. */
  method Plan(digest: string -> string, c: Cluster, secret: string, b: Bound) returns (decision: Decision)
    ensures decision == Decide(digest, c, secret, b)
  {
    hide InventoryOf, DecideSecret, ObjectTarget, LocationForm, NamedByNoOther, NamedAtOneBucket, NamedInlineOnly;
    var refs := Inventory(c, secret);
    match b
    case ToLocation(url, endpoint, region, pathStyle, allowHttp) =>
      var parsed := ParseUrl(url);
      if parsed.Some? && parsed.value.scheme == "s3" && region != "none" && !IsRegion(region) {
        return Refused(BadRegion);
      }
      var form := LocationForm(b);
      if form.Err? {
        return Refused(form.error);
      }
      if !NamedInlineOnly(refs) {
        return Refused(NamedByObject);
      }
      if !NamedAtOneBucket(refs, url) {
        return Refused(OtherBucket);
      }
      decision := DecideSecret(c, secret, b, None, Binding(digest, "location", form.value), LocationEndpoint(b));
    case ToObject(kind, name) =>
      if (kind, name) !in c.objects {
        return Refused(NoSuchObject);
      }
      var o := c.objects[(kind, name)];
      var target := ObjectTarget(c, o);
      if target.Err? {
        return Refused(target.error);
      }
      var binding := Binding(digest, target.value.uid, target.value.canonical);
      if secret !in o.secrets {
        return Refused(NotNamed);
      }
      if !NamedByNoOther(refs, kind, name) {
        return Refused(AlsoNamed);
      }
      if !IsPublished(o.published) {
        return Refused(NotPublished);
      }
      if o.published != binding {
        return Refused(OtherPublished);
      }
      decision := DecideSecret(c, secret, b, Some(target.value.uid), binding, target.value.endpoint);
  }

  /** `main`, after its arguments are parsed: one plan, and at most one patch. */
  method Run(digest: string -> string, kube: Kubectl, args: Args, meanwhile: map<string, Secret>, newVersion: string)
    returns (exit: Exit)
    modifies kube
    ensures var (code, written) := Outcome(Decide(digest, old(kube.cluster), args.secret, args.bound), args, meanwhile);
            exit == code && kube.writes == old(kube.writes) + written
            && kube.cluster == ClusterAfter(Decide(digest, old(kube.cluster), args.secret, args.bound), args,
                                            meanwhile, newVersion,
                                            old(kube.cluster))
  {
    hide Decide;
    var decision := Plan(digest, kube.cluster, args.secret, args.bound);
    match decision
    case AlreadyBound =>
      exit := ExitOk;
      assert kube.writes + [] == kube.writes;
    case Refused(_) =>
      exit := ExitRefused;
      assert kube.writes + [] == kube.writes;
    case Planned(binding, endpoint, version) =>
      assert kube.writes + [] == kube.writes;
      if !args.apply {
        return ExitOk;
      }
      if args.confirmEndpoint != Some(endpoint) {
        return ExitRefused;
      }
      kube.Elapse(meanwhile);
      var ok := kube.PatchSecret(args.secret, version, binding, newVersion);
      exit := if ok then ExitOk else ExitFailed;
  }

  // ---- the guard ------------------------------------------------------------------------------

  /** What must hold of what was read for an object's Secret to be written. */
  ghost predicate ObjectGuard(digest: string -> string, c: Cluster, secret: string, b: Bound, binding: string,
                              endpoint: string,
                              version: string)
    requires b.ToObject?
  {
    (b.kind, b.name) in c.objects
    && var o := c.objects[(b.kind, b.name)];
       ObjectTarget(c, o).Ok?
       && var t := ObjectTarget(c, o).value;
          // computed from the spec, and what the object published
          binding == Binding(digest, t.uid, t.canonical) && endpoint == t.endpoint
          && o.published == binding && IsPublished(binding)
          // the object names the Secret and no other listed object does
          && secret in o.secrets
          && (forall k, i :: 0 <= k < |INVENTORY| && 0 <= i < |ItemsOf(c, INVENTORY[k].0)|
                             && secret in ItemsOf(c, INVENTORY[k].0)[i].secrets ==>
                INVENTORY[k].0 == b.kind && ItemsOf(c, INVENTORY[k].0)[i].name == b.name)
          // the Secret is nobody else's and carries no binding
          && secret in c.secrets && c.secrets[secret].version == version
          && OwnerFits(c.secrets[secret], Some(t.uid)) && MintFits(c.secrets[secret], b)
          && Strip(c.secrets[secret].binding) == ""
  }

  /** What must hold of what was read for a location's Secret to be written. */
  ghost predicate LocationGuard(digest: string -> string, c: Cluster, secret: string, b: Bound, binding: string,
                                endpoint: string, version: string)
    requires b.ToLocation?
  {
    LocationForm(b).Ok? && binding == Binding(digest, "location", LocationForm(b).value)
    && endpoint == LocationEndpoint(b)
    && (ParseUrl(b.url).value.scheme == "s3" ==> b.region == "none" || IsRegion(b.region))
    // only inline archives name the Secret, none of them at another bucket
    && (forall k, i :: 0 <= k < |INVENTORY| && 0 <= i < |ItemsOf(c, INVENTORY[k].0)|
                       && secret in ItemsOf(c, INVENTORY[k].0)[i].secrets ==>
          var bucket := BucketOf(ItemsOf(c, INVENTORY[k].0)[i].url);
          INVENTORY[k].1 && (bucket == None || bucket == BucketOf(Some(b.url))))
    // the Secret was made for no object and carries no binding
    && secret in c.secrets && c.secrets[secret].version == version
    && c.secrets[secret].owners == [] && CREDENTIAL_FOR !in c.secrets[secret].mintedFor
    && CONNECTION !in c.secrets[secret].mintedFor && Strip(c.secrets[secret].binding) == ""
  }

  ghost predicate Guard(digest: string -> string, c: Cluster, secret: string, b: Bound, binding: string,
                        endpoint: string,
                        version: string)
  {
    if b.ToObject? then ObjectGuard(digest, c, secret, b, binding, endpoint, version)
    else LocationGuard(digest, c, secret, b, binding, endpoint, version)
  }

  /** The inventory of a Secret, by place: each reference is a listed item that names it, and back. */
  lemma EveryNaming(c: Cluster, secret: string)
    ensures forall k, i | 0 <= k < |INVENTORY| && 0 <= i < |ItemsOf(c, INVENTORY[k].0)|
                          && secret in ItemsOf(c, INVENTORY[k].0)[i].secrets ::
              Reference(INVENTORY[k].0, ItemsOf(c, INVENTORY[k].0)[i].name, INVENTORY[k].1,
                        ItemsOf(c, INVENTORY[k].0)[i].url) in InventoryOf(c, secret, |INVENTORY|)
    ensures forall r :: r in InventoryOf(c, secret, |INVENTORY|) ==>
              exists k, i :: (0 <= k < |INVENTORY| && 0 <= i < |ItemsOf(c, INVENTORY[k].0)|
                              && secret in ItemsOf(c, INVENTORY[k].0)[i].secrets
                              && r == Reference(INVENTORY[k].0, ItemsOf(c, INVENTORY[k].0)[i].name, INVENTORY[k].1,
                                                ItemsOf(c, INVENTORY[k].0)[i].url))
  {
    hide InventoryOf, ItemsOf;
    forall k, i | 0 <= k < |INVENTORY| && 0 <= i < |ItemsOf(c, INVENTORY[k].0)|
                  && secret in ItemsOf(c, INVENTORY[k].0)[i].secrets
      ensures Reference(INVENTORY[k].0, ItemsOf(c, INVENTORY[k].0)[i].name, INVENTORY[k].1,
                        ItemsOf(c, INVENTORY[k].0)[i].url) in InventoryOf(c, secret, |INVENTORY|)
    {
      var item := ItemsOf(c, INVENTORY[k].0)[i];
      InventoryHolds(c, secret, |INVENTORY|, Reference(INVENTORY[k].0, item.name, INVENTORY[k].1, item.url));
    }
    forall r | r in InventoryOf(c, secret, |INVENTORY|)
      ensures exists k, i :: (0 <= k < |INVENTORY| && 0 <= i < |ItemsOf(c, INVENTORY[k].0)|
                              && secret in ItemsOf(c, INVENTORY[k].0)[i].secrets
                              && r == Reference(INVENTORY[k].0, ItemsOf(c, INVENTORY[k].0)[i].name, INVENTORY[k].1,
                                                ItemsOf(c, INVENTORY[k].0)[i].url))
    {
      InventoryHolds(c, secret, |INVENTORY|, r);
    }
  }

  lemma OnlyItselfNames(c: Cluster, secret: string, kind: string, name: string)
    ensures NamedByNoOther(InventoryOf(c, secret, |INVENTORY|), kind, name)
            <==> forall k, i :: 0 <= k < |INVENTORY| && 0 <= i < |ItemsOf(c, INVENTORY[k].0)|
                                && secret in ItemsOf(c, INVENTORY[k].0)[i].secrets ==>
                   INVENTORY[k].0 == kind && ItemsOf(c, INVENTORY[k].0)[i].name == name
  {
    hide InventoryOf, ItemsOf;
    EveryNaming(c, secret);
    var refs := InventoryOf(c, secret, |INVENTORY|);
    assert forall j :: 0 <= j < |refs| ==> refs[j] in refs;
  }

  lemma OnlyThatBucketNames(c: Cluster, secret: string, url: string)
    ensures var refs := InventoryOf(c, secret, |INVENTORY|);
            NamedInlineOnly(refs) && NamedAtOneBucket(refs, url)
            <==> forall k, i | 0 <= k < |INVENTORY| && 0 <= i < |ItemsOf(c, INVENTORY[k].0)|
                               && secret in ItemsOf(c, INVENTORY[k].0)[i].secrets ::
                   (var bucket := BucketOf(ItemsOf(c, INVENTORY[k].0)[i].url);
                    INVENTORY[k].1 && (bucket == None || bucket == BucketOf(Some(url))))
  {
    hide InventoryOf, ItemsOf, BucketOf;
    EveryNaming(c, secret);
    var refs := InventoryOf(c, secret, |INVENTORY|);
    assert forall j :: 0 <= j < |refs| ==> refs[j] in refs;
  }

  /** A plan is made exactly when every guard holds. */
  lemma PlannedIffGuarded(digest: string -> string, c: Cluster, secret: string, b: Bound, binding: string,
                          endpoint: string,
                          version: string)
    ensures Decide(digest, c, secret, b) == Planned(binding, endpoint, version)
            <==> Guard(digest, c, secret, b, binding, endpoint, version)
  {
    if b.ToObject? {
      PlannedObjectIffGuarded(digest, c, secret, b, binding, endpoint, version);
    } else {
      PlannedLocationIffGuarded(digest, c, secret, b, binding, endpoint, version);
    }
  }

  lemma PlannedLocationIffGuarded(digest: string -> string, c: Cluster, secret: string, b: Bound, binding: string,
                                  endpoint: string, version: string)
    requires b.ToLocation?
    ensures Decide(digest, c, secret, b) == Planned(binding, endpoint, version)
            <==> LocationGuard(digest, c, secret, b, binding, endpoint, version)
  {
    hide InventoryOf, ItemsOf, Words, BucketOf, NamedInlineOnly, NamedAtOneBucket, Strip, ParseUrl, IsRegion;
    OnlyThatBucketNames(c, secret, b.url);
  }

  lemma PlannedObjectIffGuarded(digest: string -> string, c: Cluster, secret: string, b: Bound, binding: string,
                                endpoint: string, version: string)
    requires b.ToObject?
    ensures Decide(digest, c, secret, b) == Planned(binding, endpoint, version)
            <==> ObjectGuard(digest, c, secret, b, binding, endpoint, version)
  {
    hide InventoryOf, ObjectTarget, Words;
    OnlyItselfNames(c, secret, b.kind, b.name);
  }

  /** A run writes at most once, and only the binding computed from what it read, to the Secret it
      was given, after every guard held, with the endpoint confirmed, and only if the Secret is still
      the version that carried no binding. */
  lemma WritesAreGuarded(digest: string -> string, c: Cluster, args: Args, meanwhile: map<string, Secret>)
    ensures var written := Outcome(Decide(digest, c, args.secret, args.bound), args, meanwhile).1;
            |written| <= 1
            && forall w :: w in written <==>
                 w.secret == args.secret && args.apply && args.confirmEndpoint.Some?
                 && args.secret in meanwhile
                 && Guard(digest, c, args.secret, args.bound, w.binding, args.confirmEndpoint.value,
                          meanwhile[args.secret].version)
  {
    hide Decide, Guard;
    forall w: Write | args.confirmEndpoint.Some? && args.secret in meanwhile {
      PlannedIffGuarded(digest, c, args.secret, args.bound, w.binding, args.confirmEndpoint.value,
                        meanwhile[args.secret].version);
    }
  }

  /** The subject a binding names and the canonical text whose digest it carries. */
  function BoundTo(c: Cluster, b: Bound): Option<(string, string)> {
    match b
    case ToLocation(_, _, _, _, _) =>
      if LocationForm(b).Ok? then Some(("location", LocationForm(b).value)) else None
    case ToObject(kind, name) =>
      if (kind, name) in c.objects && ObjectTarget(c, c.objects[(kind, name)]).Ok? then
        Some((c.objects[(kind, name)].uid, ObjectTarget(c, c.objects[(kind, name)]).value.canonical))
      else None
  }

  predicate OneWorded(s: string) { forall ch :: ch in s ==> !IsSeparator(ch) }

  /** Two runs in a row, with no other client between them, write once. The second finds the binding the first wrote,
      and succeeds, exactly when neither the subject nor the digest holds a comma or a space; else it is refused. */
  lemma SecondRunIsNoWrite(digest: string -> string, c: Cluster, args: Args, newVersion: string,
                           meanwhile: map<string, Secret>)
    requires var first := Decide(digest, c, args.secret, args.bound);
             first.Planned? && args.apply && args.confirmEndpoint == Some(first.endpoint)
    ensures var first := Decide(digest, c, args.secret, args.bound);
            var after := ClusterAfter(first, args, c.secrets, newVersion, c);
            var second := Outcome(Decide(digest, after, args.secret, args.bound), args, meanwhile);
            second.1 == [] && BoundTo(c, args.bound).Some?
            && (second.0 == ExitOk
                <==> OneWorded(BoundTo(c, args.bound).value.0) && OneWorded(digest(BoundTo(c, args.bound).value.1)))
  {
    hide Decide, BoundTo, Strip, Words, IsSpace, IsSeparator;
    var first := Decide(digest, c, args.secret, args.bound);
    PlannedBindings(digest, c, args.secret, args.bound);
    var (subject, text) := BoundTo(c, args.bound).value;
    assert subject == BoundTo(c, args.bound).value.0 && text == BoundTo(c, args.bound).value.1;
    NotBlank(first.binding);
    DecideAgain(digest, c, args.secret, args.bound, newVersion);
    BindingIsOneWord(digest, subject, text);
    if OneWorded(first.binding) {
      OneWord(first.binding);
    } else {
      WordsHaveNoSeparator(Strip(first.binding), "");
    }
  }

  /** A binding is one word exactly when its subject and its digest are. */
  lemma BindingIsOneWord(digest: string -> string, subject: string, text: string)
    ensures OneWorded(Binding(digest, subject, text)) <==> OneWorded(subject) && OneWorded(digest(text))
  {
    var hex := digest(text);
    var parts := "v1:" + subject + ":sha256:";
    assert Binding(digest, subject, text) == parts + hex;
    assert forall ch :: ch in parts + hex <==> ch in parts || ch in hex;
    assert forall ch :: ch in parts <==> ch in "v1:" || ch in subject || ch in ":sha256:";
    assert OneWorded("v1:") && OneWorded(":sha256:");
  }

  /** What a plan promises of the Secret it read and of the binding it computed. */
  lemma PlannedBindings(digest: string -> string, c: Cluster, secret: string, b: Bound)
    requires Decide(digest, c, secret, b).Planned?
    ensures var first := Decide(digest, c, secret, b);
            secret in c.secrets && c.secrets[secret].version == first.version
            && first.binding != "" && first.binding[0] == 'v' && BoundTo(c, b).Some?
            && first.binding == Binding(digest, BoundTo(c, b).value.0, BoundTo(c, b).value.1)
  {
    hide InventoryOf, Strip, Words, LocationForm, NamedByNoOther, NamedAtOneBucket, NamedInlineOnly,
         OwnerFits, MintFits, IsPublished, ParseUrl, IsRegion, LocationEndpoint, ObjectTarget;
    if b.ToObject? && (b.kind, b.name) in c.objects { UidOfTarget(c, c.objects[(b.kind, b.name)]); }
  }

  lemma UidOfTarget(c: Cluster, o: Object)
    ensures ObjectTarget(c, o).Ok? ==> ObjectTarget(c, o).value.uid == o.uid
  {
    hide KafkaRows, DestinationForm, RetentionForm, Where;
  }

  /** The decision about the same cluster, but for the Secret that now carries the binding. */
  lemma DecideAgain(digest: string -> string, c: Cluster, secret: string, b: Bound, newVersion: string)
    requires Decide(digest, c, secret, b).Planned? && secret in c.secrets
    requires Strip(Decide(digest, c, secret, b).binding) != ""
    ensures var binding := Decide(digest, c, secret, b).binding;
            var bound := c.secrets[secret].(binding := binding, version := newVersion);
            Decide(digest, c.(secrets := c.secrets[secret := bound]), secret, b)
            == if binding in Words(Strip(binding), "") then AlreadyBound else Refused(OtherBinding)
  {
    hide InventoryOf, Strip, Words, LocationForm, NamedByNoOther, NamedAtOneBucket, NamedInlineOnly, OwnerFits,
         MintFits, IsPublished, ParseUrl, IsRegion, LocationEndpoint, ObjectTarget;
    var binding := Decide(digest, c, secret, b).binding;
    var s := c.secrets[secret];
    var after := c.(secrets := c.secrets[secret := s.(binding := binding, version := newVersion)]);
    SameListing(c, after, secret, |INVENTORY|);
    SameFits(s, binding, newVersion, b);
    if b.ToObject? && (b.kind, b.name) in c.objects { SameTarget(c, after, c.objects[(b.kind, b.name)]); }
  }

  lemma SameFits(s: Secret, binding: string, newVersion: string, b: Bound)
    ensures var bound := s.(binding := binding, version := newVersion);
            MintFits(bound, b) == MintFits(s, b) && forall uid :: OwnerFits(bound, uid) == OwnerFits(s, uid)
  {
  }

  lemma SameTarget(c: Cluster, d: Cluster, o: Object)
    requires c.objects == d.objects
    ensures ObjectTarget(c, o) == ObjectTarget(d, o)
  {
    hide KafkaRows, DestinationForm, RetentionForm, Where;
  }

  lemma {:induction false} SameListing(c: Cluster, d: Cluster, secret: string, n: nat)
    requires n <= |INVENTORY| && c.listing == d.listing
    ensures InventoryOf(c, secret, n) == InventoryOf(d, secret, n)
  {
    if n > 0 { SameListing(c, d, secret, n - 1); }
  }

  lemma {:induction false} WordsOfWord(s: string, word: string)
    requires forall i :: 0 <= i < |s| ==> !IsSeparator(s[i])
    ensures Words(s, word) == (if word + s == "" then [] else [word + s])
    decreases |s|
  {
    if s == "" {
      assert word + s == word;
    } else {
      WordsOfWord(s[1..], word + [s[0]]);
      assert word + [s[0]] + s[1..] == word + s;
    }
  }

  /** No word holds a separator. */
  lemma {:induction false} WordsHaveNoSeparator(s: string, word: string)
    requires forall ch :: ch in word ==> !IsSeparator(ch)
    ensures forall w, ch :: w in Words(s, word) && ch in w ==> !IsSeparator(ch)
    decreases |s|
  {
    hide IsSeparator;
    if s != "" {
      WordsHaveNoSeparator(s[1..], if IsSeparator(s[0]) then "" else word + [s[0]]);
    }
  }

  lemma NotBlank(binding: string)
    requires binding != "" && binding[0] == 'v'
    ensures Strip(binding) != ""
  {
    hide LeftStrip, RightStrip, Strip;
    var left, right := StripParts(binding);
    assert !IsSpace('v');
    var blank := left + right;
    assert forall i :: 0 <= i < |blank| ==> IsSpace(blank[i]);
    assert Strip(binding) == "" ==> binding == blank;
  }

  lemma OneWord(binding: string)
    requires OneWorded(binding) && binding != ""
    ensures Strip(binding) == binding && binding in Words(Strip(binding), "")
  {
    hide IsSpace, LeftStrip, RightStrip, Strip;
    assert binding[0] in binding && binding[|binding| - 1] in binding;
    StripAround("", binding, "");
    assert "" + binding + "" == binding;
    assert forall i :: 0 <= i < |binding| ==> binding[i] in binding;
    WordsOfWord(binding, "");
    assert "" + binding == binding;
  }
}
