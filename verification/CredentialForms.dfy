/** The canonical binding forms of `scripts/bind-credential.py`: what is digested into the binding a
    credential Secret carries. */
module CredentialForms {
  import opened Basics
  import opened Whitespace

  const HEADER: string := "logweir-credential-binding/v1\n"

  // ---- rows ---------------------------------------------------------------------

  predicate OneLine(s: string) { '\n' !in s }

  predicate IsKey(s: string) { '\n' !in s && '=' !in s }

  datatype Row = Row(key: string, value: string)

  predicate Clean(row: Row) { IsKey(row.key) && OneLine(row.value) }

  predicate AllClean(rows: seq<Row>) { forall i :: 0 <= i < |rows| ==> Clean(rows[i]) }

  function Rows(rows: seq<Row>): string {
    if rows == [] then "" else rows[0].key + ("=" + (rows[0].value + ("\n" + Rows(rows[1..]))))
  }

  lemma MarkIsFirst(a: string, x: string, mark: char)
    requires mark !in a
    ensures (a + ([mark] + x))[|a|] == mark && forall i :: 0 <= i < |a| ==> (a + ([mark] + x))[i] != mark
    ensures (a + ([mark] + x))[..|a|] == a && (a + ([mark] + x))[|a| + 1..] == x
  {
  }

  /** The text before the first `mark` and after it are told apart by the mark. */
  lemma FirstMark(a: string, b: string, x: string, y: string, mark: char)
    requires mark !in a && mark !in b && a + ([mark] + x) == b + ([mark] + y)
    ensures a == b && x == y
  {
    MarkIsFirst(a, x, mark);
    MarkIsFirst(b, y, mark);
  }

  /** Rows read back: a text of clean rows is the text of one list of rows. */
  lemma {:induction false} RowsAreInjective(a: seq<Row>, b: seq<Row>)
    requires AllClean(a) && AllClean(b)
    ensures Rows(a) == Rows(b) <==> a == b
  {
    if Rows(a) == Rows(b) && a != [] && b != [] {
      var x, y := a[0].value + ("\n" + Rows(a[1..])), b[0].value + ("\n" + Rows(b[1..]));
      assert Clean(a[0]) && Clean(b[0]);
      FirstMark(a[0].key, b[0].key, x, y, '=');
      FirstMark(a[0].value, b[0].value, Rows(a[1..]), Rows(b[1..]), '\n');
      RowsAreInjective(a[1..], b[1..]);
      assert a == [a[0]] + a[1..] && b == [b[0]] + b[1..];
    }
  }

  /** `_binding`: the digested text, headed by the kind and the subject. */
  function Canonical(kind: string, subject: string, lines: seq<Row>): string {
    HEADER + Rows([Row("kind", kind), Row("subject", subject)] + lines)
  }

  function Binding(digest: string -> string, subject: string, canonical: string): string {
    "v1:" + subject + ":sha256:" + digest(canonical)
  }

  /** One canonical text, one kind, one subject and one list of lines. */
  lemma CanonicalIsInjective(kindA: string, subjectA: string, a: seq<Row>, kindB: string, subjectB: string, b: seq<Row>)
    requires OneLine(kindA) && OneLine(subjectA) && OneLine(kindB) && OneLine(subjectB) && AllClean(a) && AllClean(b)
    ensures Canonical(kindA, subjectA, a) == Canonical(kindB, subjectB, b)
            <==> kindA == kindB && subjectA == subjectB && a == b
  {
    var x, y := [Row("kind", kindA), Row("subject", subjectA)] + a, [Row("kind", kindB), Row("subject", subjectB)] + b;
    assert AllClean(x) && AllClean(y);
    RowsAreInjective(x, y);
    assert Canonical(kindA, subjectA, a)[|HEADER|..] == Rows(x);
    assert Canonical(kindB, subjectB, b)[|HEADER|..] == Rows(y);
    if x == y {
      assert x[0] == y[0] && x[1] == y[1] && x[2..] == a && y[2..] == b;
    }
  }

  // ---- S3 routes -------------------------------------------------------------------

  function OrEmpty(s: Option<string>): string { if s.Some? then s.value else "" }

  function NormalizedEndpoint(endpoint: Option<string>): string {
    var e := Strip(OrEmpty(endpoint));
    if e == "" then "aws" else AsciiLower(WithoutSlashes(e))
  }

  function Flag(value: bool): string { if value then "true" else "false" }

  datatype S3Route = S3Route(bucket: string, prefix: string, region: Option<string>, endpoint: Option<string>,
                             pathStyle: bool, allowHttp: bool)

  function RouteLines(r: S3Route, withPrefix: bool): seq<Row> {
    [Row("scheme", "s3"), Row("bucket", r.bucket), Row("endpoint", NormalizedEndpoint(r.endpoint))]
    + (if withPrefix then [Row("prefix", r.prefix)] else [])
    + [Row("region", OrEmpty(r.region)), Row("pathStyle", Flag(r.pathStyle)), Row("allowHttp", Flag(r.allowHttp))]
  }

  function DestinationForm(uid: string, r: S3Route): string {
    Canonical("BackupDestination", uid, RouteLines(r, true))
  }

  function RetentionForm(uid: string, r: S3Route, scope: string): string {
    Canonical("RetentionPolicy", uid, RouteLines(r, true) + [Row("scope", scope)])
  }

  predicate OneLineRoute(r: S3Route) {
    OneLine(r.bucket) && OneLine(r.prefix) && OneLine(OrEmpty(r.region)) && OneLine(Strip(OrEmpty(r.endpoint)))
  }

  /** One letter, once in capitals and once in small. */
  predicate CapitalOf(c: char, d: char) { 'A' <= c <= 'Z' && d as int == c as int + 32 }

  predicate SameUpToCase(a: string, b: string) {
    |a| == |b| && forall i :: 0 <= i < |a| ==> a[i] == b[i] || CapitalOf(a[i], b[i]) || CapitalOf(b[i], a[i])
  }

  function Stem(endpoint: Option<string>): string { WithoutSlashes(Strip(OrEmpty(endpoint))) }

  predicate IsAws(endpoint: Option<string>) {
    Strip(OrEmpty(endpoint)) == "" || SameUpToCase(Stem(endpoint), "aws")
  }

  /** Two endpoints are one but for whitespace around, slashes at the end and the case of ASCII
      letters; no endpoint, a blank one and the name `aws` are one too. */
  predicate SameEndpoint(a: Option<string>, b: Option<string>) {
    (IsAws(a) && IsAws(b)) || (!IsAws(a) && !IsAws(b) && SameUpToCase(Stem(a), Stem(b)))
  }

  lemma LowerIsUpToCase(a: string, b: string)
    ensures AsciiLower(a) == AsciiLower(b) <==> SameUpToCase(a, b)
  {
    if AsciiLower(a) == AsciiLower(b) {
      forall i | 0 <= i < |a| ensures a[i] == b[i] || CapitalOf(a[i], b[i]) || CapitalOf(b[i], a[i]) {
        assert AsciiLower(a)[i] == AsciiLower(b)[i];
      }
    }
    if SameUpToCase(a, b) {
      forall i | 0 <= i < |a| ensures AsciiLower(a)[i] == AsciiLower(b)[i] {
        assert a[i] == b[i] || CapitalOf(a[i], b[i]) || CapitalOf(b[i], a[i]);
      }
    }
  }

  /** Two endpoints share the row of the canonical text exactly when they are one in that sense. */
  lemma EndpointsShareARow(a: Option<string>, b: Option<string>)
    ensures NormalizedEndpoint(a) == NormalizedEndpoint(b) <==> SameEndpoint(a, b)
  {
    hide Strip, WithoutSlashes, SameUpToCase, AsciiLower;
    LowerIsUpToCase(Stem(a), "aws");
    LowerIsUpToCase(Stem(b), "aws");
    LowerIsUpToCase(Stem(a), Stem(b));
    assert AsciiLower("aws") == "aws";
  }

  lemma {:induction false} FewerSlashes(s: string)
    ensures WithoutSlashes(s) <= s
  {
    if s != "" && s[|s| - 1] == '/' { FewerSlashes(s[..|s| - 1]); }
  }

  lemma EndpointIsOneLine(endpoint: Option<string>)
    requires OneLine(Strip(OrEmpty(endpoint)))
    ensures OneLine(NormalizedEndpoint(endpoint))
  {
    hide Strip, WithoutSlashes;
    FewerSlashes(Strip(OrEmpty(endpoint)));
    forall i | 0 <= i < |Stem(endpoint)| ensures AsciiLower(Stem(endpoint))[i] != '\n' {
      assert Stem(endpoint)[i] == Strip(OrEmpty(endpoint))[i];
    }
  }

  /** What a route's canonical lines keep of it: everything the runner dials, the endpoint up to its
      spelling, an absent region as an empty one. */
  predicate SameDialled(a: S3Route, b: S3Route) {
    a.bucket == b.bucket && SameEndpoint(a.endpoint, b.endpoint)
    && OrEmpty(a.region) == OrEmpty(b.region) && a.pathStyle == b.pathStyle && a.allowHttp == b.allowHttp
  }

  lemma RouteKeys()
    ensures IsKey("scheme") && IsKey("bucket") && IsKey("endpoint") && OneLine("s3")
  {
  }

  lemma MoreRouteKeys()
    ensures IsKey("prefix") && IsKey("region") && IsKey("scope")
  {
  }

  lemma FlagKeys()
    ensures IsKey("pathStyle") && IsKey("allowHttp") && OneLine("true") && OneLine("false")
  {
  }

  lemma RouteLinesAreClean(r: S3Route, withPrefix: bool)
    requires OneLineRoute(r)
    ensures AllClean(RouteLines(r, withPrefix))
  {
    hide NormalizedEndpoint, IsKey, OneLine, Strip;
    EndpointIsOneLine(r.endpoint);
    RouteKeys();
    MoreRouteKeys();
    FlagKeys();
  }

  lemma RouteLinesAreInjective(a: S3Route, b: S3Route, withPrefix: bool)
    ensures RouteLines(a, withPrefix) == RouteLines(b, withPrefix)
            <==> SameDialled(a, b) && (withPrefix ==> a.prefix == b.prefix)
  {
    hide NormalizedEndpoint, SameEndpoint;
    EndpointsShareARow(a.endpoint, b.endpoint);
    var x, y := RouteLines(a, withPrefix), RouteLines(b, withPrefix);
    var k := if withPrefix then 4 else 3;
    if x == y {
      assert x[1] == y[1] && x[2] == y[2] && x[k] == y[k] && x[k + 1] == y[k + 1] && x[k + 2] == y[k + 2];
      assert withPrefix ==> x[3] == y[3];
    }
  }

  /** A destination's form tells its object and every field of its route apart. */
  lemma DestinationFormIsInjective(uidA: string, a: S3Route, uidB: string, b: S3Route)
    requires OneLine(uidA) && OneLine(uidB) && OneLineRoute(a) && OneLineRoute(b)
    ensures DestinationForm(uidA, a) == DestinationForm(uidB, b)
            <==> uidA == uidB && SameDialled(a, b) && a.prefix == b.prefix
  {
    hide RouteLines, Rows, SameDialled;
    RouteLinesAreClean(a, true);
    RouteLinesAreClean(b, true);
    KindsAreOneLine();
    CanonicalIsInjective("BackupDestination", uidA, RouteLines(a, true), "BackupDestination", uidB,
                         RouteLines(b, true));
    RouteLinesAreInjective(a, b, true);
  }

  /** A retention policy's form tells its scope apart too. */
  lemma RetentionFormIsInjective(uidA: string, a: S3Route, scopeA: string, uidB: string, b: S3Route, scopeB: string)
    requires OneLine(uidA) && OneLine(uidB) && OneLineRoute(a) && OneLineRoute(b) && OneLine(scopeA) && OneLine(scopeB)
    ensures RetentionForm(uidA, a, scopeA) == RetentionForm(uidB, b, scopeB)
            <==> uidA == uidB && SameDialled(a, b) && a.prefix == b.prefix && scopeA == scopeB
  {
    hide Rows, SameDialled, RouteLines, OneLineRoute, OneLine, IsKey, Canonical;
    RouteLinesAreClean(a, true);
    RouteLinesAreClean(b, true);
    KindsAreOneLine();
    MoreRouteKeys();
    var x, y := RouteLines(a, true), RouteLines(b, true);
    CanonicalIsInjective("RetentionPolicy", uidA, x + [Row("scope", scopeA)],
                         "RetentionPolicy", uidB, y + [Row("scope", scopeB)]);
    RouteLinesAreInjective(a, b, true);
    LastRowIsTold(x, Row("scope", scopeA), y, Row("scope", scopeB));
  }

  lemma LastRowIsTold(a: seq<Row>, x: Row, b: seq<Row>, y: Row)
    ensures a + [x] == b + [y] <==> a == b && x == y
  {
    var m, n := a + [x], b + [y];
    assert m[..|m| - 1] == a && n[..|n| - 1] == b;
    assert m[|m| - 1] == x && n[|n| - 1] == y;
  }

  lemma KindsAreOneLine()
    ensures OneLine("BackupDestination") && OneLine("RetentionPolicy") && OneLine("ArchiveLocation")
            && OneLine("location")
  {
  }

  // ---- archive locations ---------------------------------------------------------------

  /** What an inline archive's URL names, by its scheme. */
  datatype ArchiveLocation =
    | S3Archive(route: S3Route)
    | GsArchive(bucket: string)
    | AzArchive(account: string, container: string)

  function LocationLines(l: ArchiveLocation): seq<Row> {
    match l
    case S3Archive(route) => RouteLines(route, false)
    case GsArchive(bucket) => [Row("scheme", "gs"), Row("bucket", bucket)]
    case AzArchive(account, container) => [Row("scheme", "az"), Row("account", account), Row("container", container)]
  }

  function LocationText(l: ArchiveLocation): string { Canonical("ArchiveLocation", "location", LocationLines(l)) }

  predicate OneLineLocation(l: ArchiveLocation) {
    match l
    case S3Archive(route) => OneLineRoute(route)
    case GsArchive(bucket) => OneLine(bucket)
    case AzArchive(account, container) => OneLine(account) && OneLine(container)
  }

  /** One scheme, and everything dialled under it; nothing about an S3 prefix. */
  predicate SameLocation(a: ArchiveLocation, b: ArchiveLocation) {
    match (a, b)
    case (S3Archive(x), S3Archive(y)) => SameDialled(x, y)
    case (GsArchive(x), GsArchive(y)) => x == y
    case (AzArchive(x, u), AzArchive(y, v)) => x == y && u == v
    case _ => false
  }

  lemma LocationKeys()
    ensures IsKey("scheme") && IsKey("bucket") && IsKey("account") && IsKey("container") && OneLine("gs")
            && OneLine("az")
  {
  }

  lemma LocationLinesAreClean(l: ArchiveLocation)
    requires OneLineLocation(l)
    ensures AllClean(LocationLines(l))
  {
    hide IsKey, OneLine, RouteLines;
    LocationKeys();
    if l.S3Archive? { RouteLinesAreClean(l.route, false); }
  }

  lemma LocationLinesAreInjective(a: ArchiveLocation, b: ArchiveLocation)
    ensures LocationLines(a) == LocationLines(b) <==> SameLocation(a, b)
  {
    hide SameDialled, NormalizedEndpoint;
    var x, y := LocationLines(a), LocationLines(b);
    if a.S3Archive? && b.S3Archive? {
      RouteLinesAreInjective(a.route, b.route, false);
    } else if x == y {
      assert x[0] == y[0] && x[1] == y[1];
      assert |x| > 2 ==> x[2] == y[2];
    }
  }

  /** A location's form tells the scheme and everything dialled apart. */
  lemma LocationFormIsInjective(a: ArchiveLocation, b: ArchiveLocation)
    requires OneLineLocation(a) && OneLineLocation(b)
    ensures LocationText(a) == LocationText(b) <==> SameLocation(a, b)
  {
    hide LocationLines, Rows, SameLocation, OneLineLocation;
    LocationLinesAreClean(a);
    LocationLinesAreClean(b);
    KindsAreOneLine();
    CanonicalIsInjective("ArchiveLocation", "location", LocationLines(a), "ArchiveLocation", "location",
                         LocationLines(b));
    LocationLinesAreInjective(a, b);
  }

  // ---- Kafka connections --------------------------------------------------------------

  datatype CaSource = NoCa | SecretKey(name: string, key: string) | ConfigMapKey(name: string, key: string)

  datatype KafkaSpec = KafkaSpec(servers: seq<string>, mode: Option<string>, username: Option<string>, tls: bool,
                                 ca: CaSource, registryUrl: Option<string>, registryUsername: Option<string>)

  function ModeOf(s: KafkaSpec): string { if OrEmpty(s.mode) == "" then "plaintext" else s.mode.value }

  predicate IsSasl(mode: string) { mode == "scramSha512" || mode == "scramSha256" || mode == "plain" }

  function UsernameOf(s: KafkaSpec): string { if IsSasl(ModeOf(s)) then OrEmpty(s.username) else "" }

  function TlsOf(s: KafkaSpec): bool {
    if ModeOf(s) == "mtls" then true else if ModeOf(s) == "plaintext" then false else s.tls
  }

  function CaText(ca: CaSource): string {
    match ca
    case NoCa => "none"
    case SecretKey(name, key) => "secret/" + (name + ("/" + key))
    case ConfigMapKey(name, key) => "configMap/" + (name + ("/" + key))
  }

  function Servers(s: KafkaSpec): set<string> { set i | 0 <= i < |s.servers| :: Strip(s.servers[i]) }

  function BootstrapRow(servers: set<string>): string { Join(",", Sorted(servers)) }

  function ConnectionRows(uid: string, s: KafkaSpec): seq<Row> {
    [Row("uid", uid), Row("bootstrap", BootstrapRow(Servers(s))), Row("mode", ModeOf(s)),
     Row("username", UsernameOf(s)), Row("tls", Flag(TlsOf(s))), Row("ca", CaText(s.ca))]
  }

  /** The registry endpoint, only when the connection names one. */
  function RegistryRows(s: KafkaSpec): seq<Row> {
    if OrEmpty(s.registryUrl) != ""
    then [Row("registry", s.registryUrl.value), Row("registryUsername", OrEmpty(s.registryUsername))]
    else []
  }

  function KafkaRows(uid: string, s: KafkaSpec): seq<Row> { ConnectionRows(uid, s) + RegistryRows(s) }

  function Line(row: Row): string { row.key + "=" + row.value + "\n" }

  lemma {:induction false} RowsOfOneMore(rows: seq<Row>, row: Row)
    ensures Rows(rows + [row]) == Rows(rows) + Line(row)
  {
    if rows == [] {
      assert Rows([row]) == row.key + ("=" + (row.value + ("\n" + Rows([row][1..]))));
      assert Rows([row]) == Line(row);
      assert rows + [row] == [row];
    } else {
      RowsOfOneMore(rows[1..], row);
      assert (rows + [row])[1..] == rows[1..] + [row];
    }
  }

  lemma OneMoreLine(text: string, rows: seq<Row>, row: Row)
    requires text == HEADER + Rows(rows)
    ensures text + Line(row) == HEADER + Rows(rows + [row])
  {
    hide Rows, Line;
    RowsOfOneMore(rows, row);
  }

  /** One more line of the text. */
  method WithLine(text: string, ghost rows: seq<Row>, key: string, value: string) returns (more: string)
    requires text == HEADER + Rows(rows)
    ensures more == HEADER + Rows(rows + [Row(key, value)])
  {
    hide Rows;
    OneMoreLine(text, rows, Row(key, value));
    more := text + (key + "=" + value + "\n");
  }

  /** The six lines every connection has, behind the header. */
  method ConnectionLines(uid: string, bootstrap: string, mode: string, username: string, tls: string, ca: string)
    returns (text: string)
    ensures text == HEADER + Rows([Row("uid", uid), Row("bootstrap", bootstrap), Row("mode", mode),
                                   Row("username", username),
                                   Row("tls", tls), Row("ca", ca)])
  {
    hide Rows;
    NoRows();
    ghost var rows: seq<Row> := [];
    text := WithLine(HEADER, rows, "uid", uid);
    rows := rows + [Row("uid", uid)];
    text := WithLine(text, rows, "bootstrap", bootstrap);
    rows := rows + [Row("bootstrap", bootstrap)];
    text := WithLine(text, rows, "mode", mode);
    rows := rows + [Row("mode", mode)];
    text := WithLine(text, rows, "username", username);
    rows := rows + [Row("username", username)];
    text := WithLine(text, rows, "tls", tls);
    rows := rows + [Row("tls", tls)];
    text := WithLine(text, rows, "ca", ca);
    rows := rows + [Row("ca", ca)];
    assert rows == [Row("uid", uid), Row("bootstrap", bootstrap), Row("mode", mode), Row("username", username),
                    Row("tls", tls), Row("ca", ca)];
  }

  /** `kafka_binding`: the fields are read one by one, and the text put together from what they come to. */
  method KafkaForm(uid: string, s: KafkaSpec) returns (canonical: string)
    ensures canonical == HEADER + Rows(KafkaRows(uid, s))
  {
    hide Rows, Join, Sorted, Line;
    var mode := OrEmpty(s.mode);
    if mode == "" { mode := "plaintext"; }
    var sasl := mode == "scramSha512" || mode == "scramSha256" || mode == "plain";
    var username := "";
    if sasl { username := OrEmpty(s.username); }
    var tls := s.tls;
    if mode == "mtls" {
      tls := true;
    } else if mode == "plaintext" {
      tls := false;
    }
    var ca := "none";
    match s.ca {
      case NoCa =>
      case SecretKey(name, key) => ca := "secret/" + (name + ("/" + key));
      case ConfigMapKey(name, key) => ca := "configMap/" + (name + ("/" + key));
    }
    var servers := Sorted(set i | 0 <= i < |s.servers| :: Strip(s.servers[i]));
    assert mode == ModeOf(s) && username == UsernameOf(s) && tls == TlsOf(s) && ca == CaText(s.ca);
    canonical := ConnectionLines(uid, Join(",", servers), mode, username, Flag(tls), ca);
    if OrEmpty(s.registryUrl) != "" {
      ghost var rows := ConnectionRows(uid, s);
      canonical := WithLine(canonical, rows, "registry", s.registryUrl.value);
      canonical := WithLine(canonical, rows + [Row("registry", s.registryUrl.value)], "registryUsername",
                            OrEmpty(s.registryUsername));
      assert KafkaRows(uid, s)
          == rows + [Row("registry", s.registryUrl.value)] + [Row("registryUsername", OrEmpty(s.registryUsername))];
    } else {
      assert KafkaRows(uid, s) == ConnectionRows(uid, s);
    }
  }

  lemma NoRows()
    ensures Rows([]) == ""
  {
  }

  /** No field holds a newline. */
  predicate OneLineFields(uid: string, s: KafkaSpec) {
    OneLine(uid) && (forall i :: 0 <= i < |s.servers| ==> OneLine(s.servers[i])) && OneLine(OrEmpty(s.mode))
    && OneLine(OrEmpty(s.username)) && OneLineCa(s.ca) && OneLine(OrEmpty(s.registryUrl))
    && OneLine(OrEmpty(s.registryUsername))
  }

  predicate OneLineCa(ca: CaSource) { ca.NoCa? || (OneLine(ca.name) && OneLine(ca.key)) }

  /** No row's value holds one. */
  predicate OneLineKafka(uid: string, s: KafkaSpec) {
    OneLine(uid) && OneLine(BootstrapRow(Servers(s))) && OneLine(ModeOf(s)) && OneLine(UsernameOf(s))
    && OneLine(CaText(s.ca)) && OneLine(OrEmpty(s.registryUrl)) && OneLine(OrEmpty(s.registryUsername))
  }

  /** What a connection's form keeps of it. */
  predicate SameConnection(a: KafkaSpec, b: KafkaSpec) {
    BootstrapRow(Servers(a)) == BootstrapRow(Servers(b))
    && ModeOf(a) == ModeOf(b) && UsernameOf(a) == UsernameOf(b) && TlsOf(a) == TlsOf(b) && CaText(a.ca) == CaText(b.ca)
    && OrEmpty(a.registryUrl) == OrEmpty(b.registryUrl)
    && (OrEmpty(a.registryUrl) != "" ==> OrEmpty(a.registryUsername) == OrEmpty(b.registryUsername))
  }

  lemma KafkaKeys()
    ensures IsKey("uid") && IsKey("bootstrap") && IsKey("mode") && IsKey("username")
  {
  }

  lemma MoreKafkaKeys()
    ensures IsKey("tls") && IsKey("ca") && IsKey("registry") && IsKey("registryUsername")
  {
  }

  lemma ConnectionRowsAreClean(uid: string, s: KafkaSpec)
    requires OneLineKafka(uid, s)
    ensures AllClean(ConnectionRows(uid, s))
  {
    hide Sorted, Join, ModeOf, UsernameOf, TlsOf, CaText, IsKey, OneLine;
    KafkaKeys();
    MoreKafkaKeys();
    FlagKeys();
  }

  lemma KafkaRowsAreClean(uid: string, s: KafkaSpec)
    requires OneLineKafka(uid, s)
    ensures AllClean(KafkaRows(uid, s))
  {
    hide ConnectionRows, Sorted, Join, ModeOf, UsernameOf, TlsOf, CaText, IsKey, OneLine;
    ConnectionRowsAreClean(uid, s);
    MoreKafkaKeys();
  }

  lemma KafkaRowsAreInjective(uidA: string, a: KafkaSpec, uidB: string, b: KafkaSpec)
    ensures KafkaRows(uidA, a) == KafkaRows(uidB, b) <==> uidA == uidB && SameConnection(a, b)
  {
    hide Sorted, Join, ModeOf, UsernameOf, TlsOf, CaText;
    var x, y := KafkaRows(uidA, a), KafkaRows(uidB, b);
    if x == y {
      assert x[0] == y[0] && x[1] == y[1] && x[2] == y[2] && x[3] == y[3] && x[4] == y[4] && x[5] == y[5];
      assert |x| == 8 ==> x[6] == y[6] && x[7] == y[7];
    }
  }

  lemma {:induction false} JoinIsOneLine(parts: seq<string>)
    requires forall i :: 0 <= i < |parts| ==> OneLine(parts[i])
    ensures OneLine(Join(",", parts))
  {
    if |parts| > 1 { JoinIsOneLine(parts[1..]); }
  }

  lemma StripIsOneLine(s: string)
    requires OneLine(s)
    ensures OneLine(Strip(s))
  {
    var left, right := StripParts(s);
    forall i | 0 <= i < |Strip(s)| ensures Strip(s)[i] != '\n' { assert s[|left| + i] == Strip(s)[i]; }
  }

  lemma OneLineFieldsOneLineRows(uid: string, s: KafkaSpec)
    requires OneLineFields(uid, s)
    ensures OneLineKafka(uid, s)
  {
    hide Join, Sorted, Strip, IsSasl;
    forall i | 0 <= i < |s.servers| ensures OneLine(Strip(s.servers[i])) { StripIsOneLine(s.servers[i]); }
    var servers := Sorted(Servers(s));
    forall i | 0 <= i < |servers| ensures OneLine(servers[i]) { assert servers[i] in Servers(s); }
    JoinIsOneLine(servers);
  }

  /** A connection's form is the same for two connections without newlines exactly when the object and every row are. */
  lemma KafkaFormIsInjective(uidA: string, a: KafkaSpec, uidB: string, b: KafkaSpec)
    requires OneLineFields(uidA, a) && OneLineFields(uidB, b)
    ensures HEADER + Rows(KafkaRows(uidA, a)) == HEADER + Rows(KafkaRows(uidB, b))
            <==> uidA == uidB && SameConnection(a, b)
  {
    hide KafkaRows, Rows, SameConnection, OneLineKafka, OneLineFields;
    OneLineFieldsOneLineRows(uidA, a);
    OneLineFieldsOneLineRows(uidB, b);
    KafkaRowsAreClean(uidA, a);
    KafkaRowsAreClean(uidB, b);
    RowsAreInjective(KafkaRows(uidA, a), KafkaRows(uidB, b));
    KafkaRowsAreInjective(uidA, a, uidB, b);
    assert (HEADER + Rows(KafkaRows(uidA, a)))[|HEADER|..] == Rows(KafkaRows(uidA, a));
    assert (HEADER + Rows(KafkaRows(uidB, b)))[|HEADER|..] == Rows(KafkaRows(uidB, b));
  }

  // ---- the bootstrap set -------------------------------------------------------------------

  predicate NoComma(servers: seq<string>) { forall i :: 0 <= i < |servers| ==> ',' !in servers[i] }

  lemma CommaWhenMany(a: seq<string>)
    requires NoComma(a) && a != []
    ensures ',' in Join(",", a) <==> |a| > 1
  {
    if |a| > 1 { assert Join(",", a)[|a[0]|] == ','; }
  }

  lemma {:induction false} JoinedListsReadBack(a: seq<string>, b: seq<string>)
    requires NoComma(a) && NoComma(b) && a != [] && b != [] && Join(",", a) == Join(",", b)
    ensures a == b
  {
    CommaWhenMany(a);
    CommaWhenMany(b);
    if |a| > 1 && |b| > 1 {
      assert Join(",", a) == a[0] + ([','] + Join(",", a[1..]));
      assert Join(",", b) == b[0] + ([','] + Join(",", b[1..]));
      FirstMark(a[0], b[0], Join(",", a[1..]), Join(",", b[1..]), ',');
      JoinedListsReadBack(a[1..], b[1..]);
      assert a == [a[0]] + a[1..] && b == [b[0]] + b[1..];
    }
  }

  lemma OnlyEmptyJoinsToEmpty(a: seq<string>)
    requires NoComma(a) && a != []
    ensures Join(",", a) == "" <==> a == [""]
  {
    if |a| > 1 { assert |Join(",", a)| >= 1; }
  }

  /** The bootstrap row is a function of the set of servers, so of neither their order nor their
      repeats; over servers without commas it tells two sets apart exactly when one names a server. */
  lemma BootstrapIsTheSet(a: KafkaSpec, b: KafkaSpec)
    requires forall s :: s in Servers(a) || s in Servers(b) ==> ',' !in s
    ensures BootstrapRow(Servers(a)) == BootstrapRow(Servers(b))
            <==> Servers(a) == Servers(b) || (Servers(a) <= {""} && Servers(b) <= {""})
  {
    hide Servers;
    var x, y := Sorted(Servers(a)), Sorted(Servers(b));
    assert NoComma(x) && NoComma(y);
    EmptyOrOne(Servers(a));
    EmptyOrOne(Servers(b));
    if x != [] && y != [] {
      if Join(",", x) == Join(",", y) {
        JoinedListsReadBack(x, y);
        assert forall s :: s in Servers(a) <==> s in Servers(b);
      }
    } else {
      if x != [] { OnlyEmptyJoinsToEmpty(x); }
      if y != [] { OnlyEmptyJoinsToEmpty(y); }
    }
  }

  lemma EmptyOrOne(s: set<string>)
    ensures s <= {""} <==> Sorted(s) == [] || Sorted(s) == [""]
    ensures s == {} <==> Sorted(s) == []
  {
    if s <= {""} && s != {} {
      assert s == {""};
      SortedIsUnique(Sorted(s), [""]);
    }
    if Sorted(s) == [""] {
      assert forall x :: x in s ==> x in [""];
    }
  }

  // ---- which bootstrap rows are shared ---------------------------------------------------------------

  predicate Stripped(s: string) { StartsTight(s) && EndsTight(s) }

  predicate AllStripped(servers: set<string>) { forall x :: x in servers ==> Stripped(x) }

  /** The sets of servers a connection can have are the sets of stripped texts. */
  lemma StrippedSetsAreServers(servers: set<string>)
    ensures AllStripped(servers) <==> exists s :: Servers(s) == servers
  {
    hide Servers;
    if AllStripped(servers) {
      StrippedSetIsServers(KafkaSpec([], None, None, false, NoCa, None, None), servers);
    }
    if s :| Servers(s) == servers {
      ServersAreStripped(s);
    }
  }

  lemma ServersAreStripped(s: KafkaSpec)
    ensures AllStripped(Servers(s))
  {
    hide Strip, StartsTight, EndsTight;
    forall x | x in Servers(s) ensures Stripped(x) {
      var i :| 0 <= i < |s.servers| && x == Strip(s.servers[i]);
      var left, right := StripParts(s.servers[i]);
    }
  }

  lemma StrippedSetIsServers(s: KafkaSpec, servers: set<string>)
    requires AllStripped(servers)
    ensures Servers(s.(servers := Sorted(servers))) == servers
  {
    hide Strip, Sorted;
    var listed := Sorted(servers);
    forall i | 0 <= i < |listed| ensures Strip(listed[i]) == listed[i] {
      assert listed[i] in servers;
      StripAround("", listed[i], "");
      assert "" + listed[i] + "" == listed[i];
    }
    forall x | x in servers ensures x in Servers(s.(servers := listed)) {
      var i :| 0 <= i < |listed| && listed[i] == x;
    }
  }

  lemma {:induction false} JoinIsStripped(parts: seq<string>)
    requires parts != [] && forall i :: 0 <= i < |parts| ==> Stripped(parts[i])
    ensures Stripped(Join(",", parts))
    ensures parts[0] <= Join(",", parts)
  {
    if |parts| > 1 {
      JoinIsStripped(parts[1..]);
      JoinOfTwo(parts[0], Join(",", parts[1..]));
    }
  }

  lemma JoinOfTwo(a: string, b: string)
    requires Stripped(a) && Stripped(b)
    ensures Stripped(a + "," + b) && a <= a + "," + b && (a + "," + b)[|a|] == ','
    ensures (a + "," + b)[..|a|] == a && (a + "," + b)[|a| + 1..] == b
  {
    var s := a + "," + b;
    assert s[0] == if a == "" then ',' else a[0];
    assert s[|s| - 1] == if b == "" then ',' else b[|b| - 1];
  }

  lemma {:induction false} LessThanLonger(a: string, b: string, longer: string)
    requires Less(a, b) && b <= longer
    ensures Less(a, longer)
  {
    if a != [] && a[0] == b[0] { LessThanLonger(a[1..], b[1..], longer[1..]); }
  }

  lemma OneServer(x: string)
    ensures Sorted({x}) == [x] && BootstrapRow({x}) == x
  {
    SortedIsUnique(Sorted({x}), [x]);
  }

  /** The text is two stripped servers in order, with a comma between. */
  predicate SplitsAt(x: string, k: int) {
    0 <= k < |x| && x[k] == ',' && Stripped(x[..k]) && Stripped(x[k + 1..]) && Less(x[..k], x[k + 1..])
  }

  lemma TwoServers(x: string, k: int)
    requires SplitsAt(x, k)
    ensures x !in {x[..k], x[k + 1..]} && AllStripped({x[..k], x[k + 1..]}) && BootstrapRow({x[..k], x[k + 1..]}) == x
  {
    hide Stripped;
    var a, b := x[..k], x[k + 1..];
    SortedIsUnique(Sorted({a, b}), [a, b]);
    assert Sorted({a, b}) == [a, b] && [a, b][1..] == [b];
    assert Join(",", [a, b]) == a + "," + Join(",", [b]) && Join(",", [b]) == b;
    assert x == a + "," + b;
  }

  /** Two servers or more share their row with the one server that is the row. */
  lemma ManyServersCollide(servers: set<string>)
    requires AllStripped(servers) && |servers| >= 2
    ensures var row := BootstrapRow(servers); AllStripped({row}) && {row} != servers && BootstrapRow({row}) == row
  {
    hide Stripped, Join;
    var listed := Sorted(servers);
    forall i | 0 <= i < |listed| ensures Stripped(listed[i]) { assert listed[i] in servers; }
    JoinIsStripped(listed);
    OneServer(BootstrapRow(servers));
    assert |{BootstrapRow(servers)}| == 1;
  }

  /** A row of two servers or more splits after the first. */
  lemma ManyServersSplit(servers: set<string>)
    requires AllStripped(servers) && |servers| >= 2
    ensures SplitsAt(BootstrapRow(servers), |Sorted(servers)[0]|)
  {
    hide Stripped;
    var listed := Sorted(servers);
    forall i | 0 <= i < |listed| ensures Stripped(listed[i]) { assert listed[i] in servers; }
    JoinIsStripped(listed[1..]);
    JoinOfTwo(listed[0], Join(",", listed[1..]));
    assert Less(listed[0], listed[1]) && listed[1..][0] == listed[1];
    LessThanLonger(listed[0], listed[1], Join(",", listed[1..]));
  }

  /** Another set of servers has the same row. */
  ghost predicate IsShared(servers: set<string>) {
    exists other :: AllStripped(other) && other != servers && BootstrapRow(other) == BootstrapRow(servers)
  }

  /** What a caller can look at: not exactly one server, or one that is empty or splits in two in order. */
  ghost predicate IsAmbiguous(servers: set<string>) {
    |servers| != 1 || exists x :: x in servers && (x == "" || exists k :: SplitsAt(x, k))
  }

  /** A set of servers shares its bootstrap row with another set exactly when it is not one server, or is one that is
      empty or is two stripped servers in order with a comma between. */
  lemma SharedRowsAreAmbiguous(servers: set<string>)
    requires AllStripped(servers)
    ensures IsShared(servers) <==> IsAmbiguous(servers)
  {
    if IsAmbiguous(servers) { AmbiguousIsShared(servers); }
    if IsShared(servers) && |servers| == 1 { SharedIsAmbiguous(servers); }
  }

  lemma NoServers()
    ensures BootstrapRow({}) == "" && AllStripped({}) && AllStripped({""})
  {
  }

  lemma AmbiguousIsShared(servers: set<string>)
    requires AllStripped(servers) && IsAmbiguous(servers)
    ensures IsShared(servers)
  {
    hide BootstrapRow, AllStripped, SplitsAt;
    NoServers();
    OneServer("");
    if |servers| == 0 {
      assert servers == {} && {""} != servers;
    } else if |servers| >= 2 {
      ManyServersCollide(servers);
      assert {BootstrapRow(servers)} != servers;
    } else {
      var x :| x in servers && (x == "" || exists k :: SplitsAt(x, k));
      OnlyOne(servers, x);
      if x == "" {
        assert {} != servers;
      } else {
        var k :| SplitsAt(x, k);
        assert 0 <= k < |x| by { SplitIsInside(x, k); }
        TwoServers(x, k);
        OneServer(x);
        assert {x[..k], x[k + 1..]} != servers;
      }
    }
  }

  lemma SplitIsInside(x: string, k: int)
    requires SplitsAt(x, k)
    ensures 0 <= k < |x|
  {
  }

  lemma OnlyOne(servers: set<string>, x: string)
    requires |servers| == 1 && x in servers
    ensures servers == {x}
  {
    assert |servers - {x}| == 0;
    assert servers == (servers - {x}) + {x};
  }

  lemma SharedIsAmbiguous(servers: set<string>)
    requires AllStripped(servers) && IsShared(servers) && |servers| == 1
    ensures IsAmbiguous(servers)
  {
    hide BootstrapRow, AllStripped, SplitsAt;
    NoServers();
    var x :| x in servers;
    OnlyOne(servers, x);
    OneServer(x);
    var other :| AllStripped(other) && other != servers && BootstrapRow(other) == BootstrapRow(servers);
    if |other| == 0 {
      assert other == {};
    } else if |other| == 1 {
      var y :| y in other;
      OnlyOne(other, y);
      OneServer(y);
    } else {
      ManyServersSplit(other);
    }
  }

  // ---- which CA references are shared -----------------------------------------------------------------

  predicate SlashFree(ca: CaSource) { ca.NoCa? || '/' !in ca.name }

  predicate IsKeyChar(c: char) {
    c == '-' || c == '.' || c == '_' || 'a' <= c <= 'z' || 'A' <= c <= 'Z' || '0' <= c <= '9'
  }

  predicate IsAlphanumeric(c: char) { 'a' <= c <= 'z' || '0' <= c <= '9' }

  predicate IsAdmittedKey(key: string) {
    1 <= |key| <= 253 && forall i :: 0 <= i < |key| ==> IsKeyChar(key[i])
  }

  /** Labels of small letters, digits and inner hyphens, with dots between. */
  predicate IsAdmittedName(name: string) {
    1 <= |name| <= 253 && IsAlphanumeric(name[0]) && IsAlphanumeric(name[|name| - 1])
    && (forall i :: 0 <= i < |name| ==> IsAlphanumeric(name[i]) || name[i] == '-' || name[i] == '.')
    && forall i :: 1 <= i < |name| - 1 && name[i] == '.' ==> IsAlphanumeric(name[i - 1]) && IsAlphanumeric(name[i + 1])
  }

  /** What the schema of KafkaCluster admits. */
  predicate IsAdmitted(ca: CaSource) { ca.NoCa? || (IsAdmittedName(ca.name) && IsAdmittedKey(ca.key)) }

  function Place(ca: CaSource): string
    requires !ca.NoCa?
  {
    ca.name + (['/'] + ca.key)
  }

  lemma CaPlaces(a: CaSource, b: CaSource)
    ensures CaText(a) == CaText(b) <==>
            (a.NoCa? && b.NoCa?) || (a.SecretKey? && b.SecretKey? && Place(a) == Place(b))
            || (a.ConfigMapKey? && b.ConfigMapKey? && Place(a) == Place(b))
  {
    CaKind(a);
    CaKind(b);
  }

  /** The reference's text, by its first letter and what follows the kind. */
  lemma CaKind(ca: CaSource)
    ensures CaText(ca)[0] == match ca { case NoCa => 'n' case SecretKey(_, _) => 's' case ConfigMapKey(_, _) => 'c' }
    ensures ca.SecretKey? ==> CaText(ca)[7..] == Place(ca) && CaText(ca) == "secret/" + Place(ca)
    ensures ca.ConfigMapKey? ==> CaText(ca)[10..] == Place(ca) && CaText(ca) == "configMap/" + Place(ca)
  {
  }

  /** References whose names hold no slash are told apart. */
  lemma CaTextsReadBack(a: CaSource, b: CaSource)
    requires SlashFree(a) && SlashFree(b)
    ensures CaText(a) == CaText(b) <==> a == b
  {
    hide CaText;
    CaPlaces(a, b);
    if CaText(a) == CaText(b) && !a.NoCa? {
      FirstMark(a.name, b.name, a.key, b.key, '/');
    }
  }

  /** Another reference has the same text. */
  ghost predicate CaIsShared(ca: CaSource) { exists other :: other != ca && CaText(other) == CaText(ca) }

  lemma MovedSlash(a: string, b: string, c: string)
    ensures (a + (['/'] + b)) + (['/'] + c) == a + (['/'] + (b + (['/'] + c)))
  {
  }

  lemma SlashSplits(s: string) returns (before: string, after: string)
    requires '/' in s
    ensures s == before + (['/'] + after) && |before| < |s| && |after| < |s|
  {
    var i :| 0 <= i < |s| && s[i] == '/';
    before, after := s[..i], s[i + 1..];
  }

  /** A CA reference shares its text with another exactly when its name or its key holds a slash. */
  lemma SharedReferencesHaveSlashes(ca: CaSource)
    ensures CaIsShared(ca) <==> !ca.NoCa? && ('/' in ca.name || '/' in ca.key)
  {
    hide CaText;
    if !ca.NoCa? && '/' in ca.name {
      var x, y := SlashSplits(ca.name);
      var other := ca.(name := x, key := y + (['/'] + ca.key));
      MovedSlash(x, y, ca.key);
      CaPlaces(other, ca);
      assert other != ca;
    } else if !ca.NoCa? && '/' in ca.key {
      var x, y := SlashSplits(ca.key);
      var other := ca.(name := ca.name + (['/'] + x), key := y);
      MovedSlash(ca.name, x, y);
      CaPlaces(other, ca);
      assert other.key != ca.key;
    } else if CaIsShared(ca) {
      var other :| other != ca && CaText(other) == CaText(ca);
      CaPlaces(other, ca);
      OneSlash(ca, other);
      FirstMark(ca.name, other.name, ca.key, other.key, '/');
    }
  }

  /** A reference the schema admits shares its text with no other, admitted or not. */
  lemma AdmittedReferencesAreTold(ca: CaSource, other: CaSource)
    requires IsAdmitted(ca)
    ensures SlashFree(ca) && (CaText(ca) == CaText(other) <==> ca == other)
  {
    hide CaText;
    SharedReferencesHaveSlashes(ca);
  }

  lemma OneSlash(ca: CaSource, other: CaSource)
    requires !ca.NoCa? && !other.NoCa? && '/' !in ca.name && '/' !in ca.key && Place(ca) == Place(other)
    ensures '/' !in other.name
  {
    var text := Place(ca);
    assert text[|other.name|] == '/';
    assert forall i :: 0 <= i < |text| && text[i] == '/' ==> i == |ca.name|;
    forall i | 0 <= i < |other.name| ensures other.name[i] != '/' { assert text[i] == other.name[i]; }
  }

  // ---- connections, field by field --------------------------------------------------------------------

  /** The object's connection, field by field: the set of servers (no server and one empty one are alike), the mode, the
      username and TLS they come to, the CA reference, and the registry when there is one. */
  predicate SameFields(a: KafkaSpec, b: KafkaSpec) {
    (Servers(a) == Servers(b) || (Servers(a) <= {""} && Servers(b) <= {""}))
    && ModeOf(a) == ModeOf(b) && UsernameOf(a) == UsernameOf(b) && TlsOf(a) == TlsOf(b) && a.ca == b.ca
    && OrEmpty(a.registryUrl) == OrEmpty(b.registryUrl)
    && (OrEmpty(a.registryUrl) != "" ==> OrEmpty(a.registryUsername) == OrEmpty(b.registryUsername))
  }

  predicate IsPlain(uid: string, s: KafkaSpec) {
    OneLineFields(uid, s) && SlashFree(s.ca) && forall x :: x in Servers(s) ==> ',' !in x
  }

  /** Over fields without newlines, servers without commas and CA names without slashes, a connection's form tells its
      object and every field apart. */
  lemma ConnectionsAreTellable(uidA: string, a: KafkaSpec, uidB: string, b: KafkaSpec)
    requires IsPlain(uidA, a) && IsPlain(uidB, b)
    ensures HEADER + Rows(KafkaRows(uidA, a)) == HEADER + Rows(KafkaRows(uidB, b)) <==> uidA == uidB && SameFields(a, b)
  {
    hide Rows, KafkaRows, OneLineFields, CaText, ModeOf, UsernameOf, TlsOf, Servers, BootstrapRow, SlashFree;
    KafkaFormIsInjective(uidA, a, uidB, b);
    BootstrapIsTheSet(a, b);
    CaTextsReadBack(a.ca, b.ca);
  }

  // ---- every form ------------------------------------------------------------------------------------------

  /** What a binding is computed from. */
  datatype Form =
    | OfDestination(uid: string, route: S3Route)
    | OfRetention(uid: string, route: S3Route, scope: string)
    | OfArchive(location: ArchiveLocation)
    | OfConnection(uid: string, spec: KafkaSpec)

  function TextOf(f: Form): string {
    match f
    case OfDestination(uid, route) => DestinationForm(uid, route)
    case OfRetention(uid, route, scope) => RetentionForm(uid, route, scope)
    case OfArchive(location) => LocationText(location)
    case OfConnection(uid, spec) => HEADER + Rows(KafkaRows(uid, spec))
  }

  predicate OneLineForm(f: Form) {
    match f
    case OfDestination(uid, route) => OneLine(uid) && OneLineRoute(route)
    case OfRetention(uid, route, scope) => OneLine(uid) && OneLineRoute(route) && OneLine(scope)
    case OfArchive(location) => OneLineLocation(location)
    case OfConnection(uid, spec) => OneLineFields(uid, spec)
  }

  predicate SameForm(f: Form, g: Form) {
    match (f, g)
    case (OfDestination(u, a), OfDestination(v, b)) => u == v && SameDialled(a, b) && a.prefix == b.prefix
    case (OfRetention(u, a, s), OfRetention(v, b, t)) => u == v && SameDialled(a, b) && a.prefix == b.prefix && s == t
    case (OfArchive(a), OfArchive(b)) => SameLocation(a, b)
    case (OfConnection(u, a), OfConnection(v, b)) => u == v && SameConnection(a, b)
    case _ => false
  }

  /** The first row of each kind's text. */
  function Heading(f: Form): Row {
    match f
    case OfDestination(_, _) => Row("kind", "BackupDestination")
    case OfRetention(_, _, _) => Row("kind", "RetentionPolicy")
    case OfArchive(_) => Row("kind", "ArchiveLocation")
    case OfConnection(uid, _) => Row("uid", uid)
  }

  lemma HeadingsDiffer(f: Form, g: Form)
    requires Heading(f) == Heading(g)
    ensures f.OfDestination? == g.OfDestination? && f.OfRetention? == g.OfRetention? && f.OfArchive? == g.OfArchive?
  {
    assert "kind"[0] == 'k' && "uid"[0] == 'u';
    assert "BackupDestination"[0] == 'B' && "RetentionPolicy"[0] == 'R' && "ArchiveLocation"[0] == 'A';
  }

  lemma KindLine()
    ensures IsKey("kind") && IsKey("subject")
  {
  }

  /** Every text is its heading and other clean rows. */
  lemma TextIsRows(f: Form) returns (rows: seq<Row>)
    requires OneLineForm(f)
    ensures AllClean([Heading(f)] + rows) && TextOf(f) == HEADER + Rows([Heading(f)] + rows)
  {
    hide Rows, RouteLines, LocationLines, IsKey, OneLine, OneLineRoute, OneLineLocation, OneLineFields, OneLineKafka;
    KindsAreOneLine();
    KindLine();
    match f
    case OfDestination(uid, route) =>
      RouteLinesAreClean(route, true);
      rows := [Row("subject", uid)] + RouteLines(route, true);
      assert [Heading(f)] + rows == [Row("kind", "BackupDestination"), Row("subject", uid)] + RouteLines(route, true);
    case OfRetention(uid, route, scope) =>
      RouteLinesAreClean(route, true);
      MoreRouteKeys();
      var lines := RouteLines(route, true) + [Row("scope", scope)];
      rows := [Row("subject", uid)] + lines;
      assert [Heading(f)] + rows == [Row("kind", "RetentionPolicy"), Row("subject", uid)] + lines;
    case OfArchive(location) =>
      LocationLinesAreClean(location);
      rows := [Row("subject", "location")] + LocationLines(location);
      assert [Heading(f)] + rows
          == [Row("kind", "ArchiveLocation"), Row("subject", "location")] + LocationLines(location);
    case OfConnection(uid, spec) =>
      OneLineFieldsOneLineRows(uid, spec);
      KafkaRowsAreClean(uid, spec);
      rows := KafkaRows(uid, spec)[1..];
      assert [Heading(f)] + rows == KafkaRows(uid, spec);
  }

  /** One text, one kind of form: the Kafka form has no kind line, but its first line is no kind. */
  lemma KindsAreTellable(f: Form, g: Form)
    requires OneLineForm(f) && OneLineForm(g) && TextOf(f) == TextOf(g)
    ensures f.OfDestination? == g.OfDestination? && f.OfRetention? == g.OfRetention? && f.OfArchive? == g.OfArchive?
  {
    hide Rows, TextOf, OneLineForm, Heading;
    var x := TextIsRows(f);
    var y := TextIsRows(g);
    assert (HEADER + Rows([Heading(f)] + x))[|HEADER|..] == Rows([Heading(f)] + x);
    assert (HEADER + Rows([Heading(g)] + y))[|HEADER|..] == Rows([Heading(g)] + y);
    RowsAreInjective([Heading(f)] + x, [Heading(g)] + y);
    assert ([Heading(f)] + x)[0] == ([Heading(g)] + y)[0];
    HeadingsDiffer(f, g);
  }

  /** Over fields without newlines, two bindings are computed from one text exactly when they are of one kind and
      everything that kind's form keeps is the same. */
  lemma FormsAreTellable(f: Form, g: Form)
    requires OneLineForm(f) && OneLineForm(g)
    ensures TextOf(f) == TextOf(g) <==> SameForm(f, g)
  {
    hide DestinationForm, RetentionForm, LocationText, Rows, KafkaRows, SameDialled, SameLocation, SameConnection,
         OneLine, OneLineRoute, OneLineLocation, OneLineFields;
    if TextOf(f) == TextOf(g) { KindsAreTellable(f, g); }
    match (f, g)
    case (OfDestination(u, a), OfDestination(v, b)) => DestinationFormIsInjective(u, a, v, b);
    case (OfRetention(u, a, s), OfRetention(v, b, t)) => RetentionFormIsInjective(u, a, s, v, b, t);
    case (OfArchive(a), OfArchive(b)) => LocationFormIsInjective(a, b);
    case (OfConnection(u, a), OfConnection(v, b)) => KafkaFormIsInjective(u, a, v, b);
    case _ =>
  }
}
