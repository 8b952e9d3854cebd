/** The artifact manifest's normal form. */
module ArtifactManifest {
  import opened Prelude
  import opened Ordering
  import opened JsonValue
  import opened Paths

  const SCHEMA_VERSION := 2
  const ALLOWED_FIELDS: set<string> := {
    "schema_version", "manifest_sha256", "source_sha", "source_tree", "producer", "critical_inputs", "toolchain",
    "lockfiles", "payloads", "image_digest", "tauri"}
  const PRODUCER_FIELDS: set<string> := {"workflow", "run_id", "run_attempt", "job_id", "job_name"}
  const PAYLOAD_FIELDS: set<string> := {"path", "kind", "size", "sha256"}
  const PAYLOAD_KINDS: set<string> := {"web", "python", "sidecar", "oci", "sbom", "provenance", "tauri-unsigned"}

  /** What the model leaves abstract: Unicode path folding, and the digest of a canonical JSON text. */
  datatype Host = Host(fold: string -> string, digest: Json -> string)

  // ----- The checks

  predicate NonBlank(j: Json) { j.JString? && exists i | 0 <= i < |j.s| :: j.s[i] !in " \t\n\r" }

  lemma BlankChecks()
    ensures !NonBlank(JString("")) && !NonBlank(JString(" \t\n\r")) && NonBlank(JString(" x "))
  {
    assert " x "[1] == 'x';
  }

  /** A normalized POSIX relative path that is no Windows path either. */
  predicate RelativePath(path: string) {
    && path != [] && '\\' !in path && '\0' !in path
    && !(|path| >= 3 && ('A' <= path[0] <= 'Z' || 'a' <= path[0] <= 'z') && path[1] == ':' && path[2] == '/')
    && (path == "." || forall c | c in Split(path, '/') :: c != "" && c != "." && c != "..")
  }

  /** A path joined from parts is accepted exactly when no part is empty, `.` or `..`, unless it is `.` alone, and when
      it holds no backslash, no NUL and no drive. */
  lemma RelativePathIff(parts: seq<string>)
    requires parts != [] && Unbroken(parts, '/')
    ensures var path := Join(parts, '/');
      RelativePath(path) <==>
      && (parts == ["."] || forall c | c in parts :: c !in {"", ".", ".."})
      && '\\' !in path && '\0' !in path
      && !(|path| >= 3 && ('A' <= path[0] <= 'Z' || 'a' <= path[0] <= 'z') && path[1] == ':' && path[2] == '/')
  {
    var path := Join(parts, '/');
    SplitOfJoin(parts, '/');
    DotAlone(path);
    EmptySplit();
    assert path == "." <==> parts == ["."];
    assert path == [] ==> parts == [[]] && [] in parts;
  }

  lemma EmptySplit()
    ensures Split<char>([], '/') == [[]]
  {}

  lemma DotAlone(path: string)
    ensures path == "." <==> Split(path, '/') == ["."]
  {
    JoinOfSplit(path, '/');
    if path == "." { SplitPart([], '/', "."); assert [] + "." == "."; ExtendEmpty([], "."); EmptySplit(); }
  }

  predicate ProducerOk(j: Json) {
    && j.JObject? && HasExactly(j.members, PRODUCER_FIELDS)
    && NonBlank(j.members["workflow"]) && NonBlank(j.members["job_id"]) && NonBlank(j.members["job_name"])
    && IsPositive(j.members["run_id"]) && IsPositive(j.members["run_attempt"])
  }

  predicate PayloadOk(j: Json) {
    && j.JObject? && HasExactly(j.members, PAYLOAD_FIELDS)
    && j.members["path"].JString? && RelativePath(j.members["path"].s)
    && j.members["kind"].JString? && j.members["kind"].s in PAYLOAD_KINDS
    && j.members["size"].JInt? && j.members["size"].n >= 0
    && IsHexText(j.members["sha256"], 64)
  }

  function PayloadPath(j: Json): string {
    if j.JObject? && "path" in j.members && j.members["path"].JString? then j.members["path"].s else ""
  }

  function PayloadKey(j: Json): Codes { CodesOf(PayloadPath(j)) }

  predicate PayloadsOk(items: seq<Json>, fold: string -> string) {
    && items != [] && (forall j | j in items :: PayloadOk(j))
    && forall i, k | 0 <= i < k < |items| :: fold(PayloadPath(items[i])) != fold(PayloadPath(items[k]))
  }

  predicate StringMapOk(j: Json, digests: bool) {
    && j.JObject? && j.members != map[]
    && forall key | key in j.members ::
         key != "" && IsText(j.members[key]) && (digests ==> IsHexText(j.members[key], 64))
  }

  predicate HasKind(items: seq<Json>, kind: string) {
    exists j | j in items :: j.JObject? && "kind" in j.members && j.members["kind"] == JString(kind)
  }

  predicate ImageOk(image: Json, items: seq<Json>) {
    if image.JNull? then !HasKind(items, "oci")
    else image.JString? && "sha256:" <= image.s && IsHex(image.s[7..], 64) && HasKind(items, "oci")
  }

  predicate TauriOk(tauri: Json, items: seq<Json>) {
    if tauri.JNull? then !HasKind(items, "tauri-unsigned")
    else tauri.JObject? && HasExactly(tauri.members, {"cargo_lock_sha256"})
         && IsHexText(tauri.members["cargo_lock_sha256"], 64) && HasKind(items, "tauri-unsigned")
  }

  /** Python compares the version with `!=`, so the float 2.0 passes too. */
  predicate SchemaOk(j: Json) { j == JInt(SCHEMA_VERSION) || j == JFloat(2.0) }

  /** The version is compared by value. */
  lemma VersionByValue(j: Json)
    ensures SchemaOk(j) <==> SameValue(j, JInt(2))
  {}

  function Items(m: Members): seq<Json> {
    if "payloads" in m && m["payloads"].JArray? then m["payloads"].items else []
  }

  /** The normalized value of a field: the version as an integer, the payloads sorted, the rest as it is. */
  function FieldValue(m: Members, key: string): Json
    requires key in m
  {
    if key == "schema_version" then JInt(SCHEMA_VERSION)
    else if key == "payloads" then JArray(Sort(PayloadKey, Items(m)))
    else m[key]
  }

  /** Everything but the digest, in canonical form; an optional field given as null is dropped. */
  function Body(m: Members): Json {
    JObject(map key | key in m && key != "manifest_sha256" && !m[key].JNull? :: FieldValue(m, key))
  }

  predicate FieldsOk(host: Host, m: Members) {
    && m.Keys <= ALLOWED_FIELDS && SchemaOk(Get(m, "schema_version"))
    && IsHexText(Get(m, "source_sha"), 40) && IsHexText(Get(m, "source_tree"), 40) && ProducerOk(Get(m, "producer"))
    && Get(m, "payloads").JArray? && PayloadsOk(Items(m), host.fold)
    && StringMapOk(Get(m, "critical_inputs"), true) && StringMapOk(Get(m, "toolchain"), false)
    && StringMapOk(Get(m, "lockfiles"), true)
    && ImageOk(Get(m, "image_digest"), Items(m)) && TauriOk(Get(m, "tauri"), Items(m))
  }

  predicate Accepted(host: Host, raw: Json) {
    && raw.JObject? && FieldsOk(host, raw.members)
    && Get(raw.members, "manifest_sha256") in {JNull, JString(host.digest(Body(raw.members)))}
  }

  function NormalForm(host: Host, raw: Json): Json
    requires raw.JObject?
  {
    var body := Body(raw.members);
    JObject(body.members["manifest_sha256" := JString(host.digest(body))])
  }

  /** What the validator computes. */
  function ManifestOf(host: Host, raw: Json): Result<Json> {
    if Accepted(host, raw) then Ok(NormalForm(host, raw)) else Err
  }

  // ----- What an accepted manifest says

  /** Some payload has the kind. */
  ghost predicate ListsKind(items: seq<Json>, kind: string) {
    exists i | 0 <= i < |items| :: Get(MembersOf(items[i]), "kind") == JString(kind)
  }

  lemma KindListed(items: seq<Json>, kind: string)
    requires forall j | j in items :: PayloadOk(j)
    ensures HasKind(items, kind) <==> ListsKind(items, kind)
  {
    if ListsKind(items, kind) {
      var i :| 0 <= i < |items| && Get(MembersOf(items[i]), "kind") == JString(kind);
      assert items[i] in items;
    }
  }

  /** An image digest is there exactly with an OCI payload, and Cargo lock metadata exactly with an unsigned Tauri
      one. */
  lemma AcceptedMetadata(host: Host, raw: Json)
    requires Accepted(host, raw)
    ensures var m := raw.members; var items := Items(m);
      && (!Get(m, "image_digest").JNull? <==> ListsKind(items, "oci"))
      && (!Get(m, "tauri").JNull? <==> ListsKind(items, "tauri-unsigned"))
  {
    var items := Items(raw.members);
    KindListed(items, "oci");
    KindListed(items, "tauri-unsigned");
  }

  /** Each accepted payload has its four fields, a path without empty, `.` or `..` parts, and no other payload's path,
      however letters are written. */
  lemma AcceptedPayload(host: Host, raw: Json, i: nat)
    requires Accepted(host, raw) && i < |Items(raw.members)|
    ensures var items := Items(raw.members); var p := MembersOf(items[i]);
      && p.Keys == {"path", "kind", "size", "sha256"}
      && Get(p, "path").JString? && Get(p, "size").JInt? && Get(p, "size").n >= 0 && IsHexText(Get(p, "sha256"), 64)
      && (Get(p, "path").s == "." || forall c | c in Split(Get(p, "path").s, '/') :: c !in {"", ".", ".."})
      && forall k | 0 <= k < |items| && k != i :: host.fold(PayloadPath(items[k])) != host.fold(Get(p, "path").s)
  {
    var items := Items(raw.members);
    assert items[i] in items;
  }

  /** The version is the number two, the source ids are object ids, the digest is absent or right, and no field is
      unknown. */
  lemma AcceptedScalars(host: Host, raw: Json)
    requires Accepted(host, raw)
    ensures var m := raw.members;
      && SameValue(Get(m, "schema_version"), JInt(2)) && !Get(m, "schema_version").JBool?
      && Get(m, "source_sha").JString? && IsHex(Get(m, "source_sha").s, 40)
      && Get(m, "source_tree").JString? && IsHex(Get(m, "source_tree").s, 40)
      && (Get(m, "manifest_sha256").JNull? || Get(m, "manifest_sha256") == JString(host.digest(Body(m))))
      && m.Keys <= {"schema_version", "manifest_sha256", "source_sha", "source_tree", "producer", "critical_inputs",
                    "toolchain", "lockfiles", "payloads", "image_digest", "tauri"}
  {}

  /** The producer names one job of one attempt of one run. */
  lemma AcceptedProducer(host: Host, raw: Json)
    requires Accepted(host, raw)
    ensures var p := MembersOf(Get(raw.members, "producer"));
      && p.Keys == {"workflow", "run_id", "run_attempt", "job_id", "job_name"}
      && IsText(Get(p, "workflow")) && IsText(Get(p, "job_id")) && IsText(Get(p, "job_name"))
      && IsPositive(Get(p, "run_id")) && IsPositive(Get(p, "run_attempt"))
  {}

  /** The three maps are not empty, name no empty key and hold no empty value; inputs and lockfiles hold digests. */
  lemma AcceptedMap(host: Host, raw: Json, field: string, key: string)
    requires Accepted(host, raw) && field in {"critical_inputs", "toolchain", "lockfiles"}
    ensures Get(raw.members, field).JObject? && Get(raw.members, field).members != map[]
    ensures key in Get(raw.members, field).members ==>
              && key != "" && IsText(Get(raw.members, field).members[key])
              && (field != "toolchain" ==> IsHexText(Get(raw.members, field).members[key], 64))
  {}

  function SamplePayload(kind: string): Json {
    JObject(map["path" := JString("p/f"), "kind" := JString(kind), "size" := JInt(0),
                "sha256" := JString(ZeroHex(64))])
  }

  function SampleProducer(): Json {
    JObject(map["workflow" := JString("CI"), "run_id" := JInt(7), "run_attempt" := JInt(2), "job_id" := JString("web"),
                "job_name" := JString("Web")])
  }

  function SampleManifest(kind: string, image: Json, tauri: Json): Members {
    map["schema_version" := JInt(2), "source_sha" := JString(ZeroHex(40)), "source_tree" := JString(ZeroHex(40)),
        "producer" := SampleProducer(), "critical_inputs" := JObject(map["a" := JString(ZeroHex(64))]),
        "toolchain" := JObject(map["b" := JString("1")]), "lockfiles" := JObject(map["c" := JString(ZeroHex(64))]),
        "payloads" := JArray([SamplePayload(kind)]), "image_digest" := image, "tauri" := tauri]
  }

  lemma SamplePathOk()
    ensures RelativePath("p/f")
  {
    SplitOfJoin(["p", "f"], '/');
    JoinMore(["p"], '/', "f");
    assert ["p"] + ["f"] == ["p", "f"] && "p" + ['/'] + "f" == "p/f";
  }

  lemma SamplePayloadOk(kind: string)
    requires kind in PAYLOAD_KINDS
    ensures PayloadOk(SamplePayload(kind)) && MembersOf(SamplePayload(kind))["kind"] == JString(kind)
  {
    SamplePathOk();
    assert SamplePayload(kind).members.Keys == PAYLOAD_FIELDS;
  }

  lemma SampleProducerOk()
    ensures ProducerOk(SampleProducer())
  {
    assert SampleProducer().members.Keys == PRODUCER_FIELDS;
    assert "CI"[0] == 'C' && "web"[0] == 'w' && "Web"[0] == 'W';
  }

  lemma SampleFields(kind: string, image: Json, tauri: Json)
    ensures var m := SampleManifest(kind, image, tauri);
      && m.Keys <= ALLOWED_FIELDS && Items(m) == [SamplePayload(kind)] && Get(m, "payloads").JArray?
      && Get(m, "schema_version") == JInt(2) && Get(m, "image_digest") == image && Get(m, "tauri") == tauri
      && Get(m, "manifest_sha256").JNull?
  {}

  lemma OneEntry(key: string, value: Json, digests: bool)
    requires key != "" && IsText(value) && (digests ==> IsHexText(value, 64))
    ensures StringMapOk(JObject(map[key := value]), digests)
  {
    assert key in map[key := value];
  }

  lemma SampleIds(kind: string, image: Json, tauri: Json)
    ensures var m := SampleManifest(kind, image, tauri);
      && IsHexText(Get(m, "source_sha"), 40) && IsHexText(Get(m, "source_tree"), 40)
      && Get(m, "producer") == SampleProducer()
  {}

  lemma SampleMaps(kind: string, image: Json, tauri: Json)
    ensures var m := SampleManifest(kind, image, tauri);
      && StringMapOk(Get(m, "critical_inputs"), true) && StringMapOk(Get(m, "toolchain"), false)
      && StringMapOk(Get(m, "lockfiles"), true)
  {
    OneEntry("a", JString(ZeroHex(64)), true);
    OneEntry("b", JString("1"), false);
    OneEntry("c", JString(ZeroHex(64)), true);
  }

  lemma OnlyMetadataOpen(host: Host, m: Members, payload: Json)
    requires m.Keys <= ALLOWED_FIELDS && Get(m, "payloads").JArray? && Items(m) == [payload] && PayloadOk(payload)
    requires Get(m, "schema_version") == JInt(2) && Get(m, "manifest_sha256").JNull?
    requires IsHexText(Get(m, "source_sha"), 40) && IsHexText(Get(m, "source_tree"), 40)
    requires ProducerOk(Get(m, "producer"))
    requires StringMapOk(Get(m, "critical_inputs"), true) && StringMapOk(Get(m, "toolchain"), false)
    requires StringMapOk(Get(m, "lockfiles"), true)
    ensures Accepted(host, JObject(m)) <==>
            ImageOk(Get(m, "image_digest"), [payload]) && TauriOk(Get(m, "tauri"), [payload])
  {}

  predicate ImageSuits(kind: string, image: Json) {
    if kind == "oci" then image.JString? && "sha256:" <= image.s && IsHex(image.s[7..], 64) else image.JNull?
  }

  predicate TauriSuits(kind: string, tauri: Json) {
    if kind == "tauri-unsigned"
    then tauri.JObject? && tauri.members.Keys == {"cargo_lock_sha256"}
         && IsHexText(tauri.members["cargo_lock_sha256"], 64)
    else tauri.JNull?
  }

  /** A manifest with one payload is accepted exactly when its image digest and its Cargo metadata suit the kind. */
  lemma SampleAccepted(host: Host, kind: string, image: Json, tauri: Json)
    requires kind in PAYLOAD_KINDS
    ensures Accepted(host, JObject(SampleManifest(kind, image, tauri))) <==>
            ImageSuits(kind, image) && TauriSuits(kind, tauri)
  {
    SamplePayloadOk(kind);
    SampleProducerOk();
    SampleFields(kind, image, tauri);
    SampleIds(kind, image, tauri);
    SampleMaps(kind, image, tauri);
    OnlyMetadataOpen(host, SampleManifest(kind, image, tauri), SamplePayload(kind));
    SampleSuits(kind, image, tauri);
  }

  lemma SampleSuits(kind: string, image: Json, tauri: Json)
    requires PayloadOk(SamplePayload(kind)) && MembersOf(SamplePayload(kind))["kind"] == JString(kind)
    ensures ImageOk(image, [SamplePayload(kind)]) <==> ImageSuits(kind, image)
    ensures TauriOk(tauri, [SamplePayload(kind)]) <==> TauriSuits(kind, tauri)
  {
    SampleKinds(kind, "oci");
    SampleKinds(kind, "tauri-unsigned");
  }

  lemma SampleKinds(kind: string, other: string)
    requires PayloadOk(SamplePayload(kind)) && MembersOf(SamplePayload(kind))["kind"] == JString(kind)
    ensures HasKind([SamplePayload(kind)], other) <==> kind == other
  {
    if kind == other { assert SamplePayload(kind) in [SamplePayload(kind)]; }
  }

  // ----- The validator

  method ValidatePayloads(items: seq<Json>, fold: string -> string) returns (r: Result<seq<Json>>)
    ensures r.Ok? <==> PayloadsOk(items, fold)
    ensures r.Ok? ==> r.value == items
  {
    if items == [] { return Err; }
    var normalized: seq<Json>, seen: map<string, string> := [], map[];
    for i := 0 to |items|
      invariant normalized == items[..i] && (forall j | j in items[..i] :: PayloadOk(j))
      invariant forall a, b | 0 <= a < b < i :: fold(PayloadPath(items[a])) != fold(PayloadPath(items[b]))
      invariant seen.Keys == set k | 0 <= k < i :: fold(PayloadPath(items[k]))
    {
      var j := items[i];
      assert j in items;
      if !PayloadOk(j) { return Err; }
      var path := j.members["path"].s;
      if fold(path) in seen { return Err; }
      seen := seen[fold(path) := path];
      normalized := normalized + [JObject(map["path" := JString(path), "kind" := j.members["kind"],
                                              "size" := j.members["size"], "sha256" := j.members["sha256"]])];
      RebuiltPayload(j);
    }
    return Ok(normalized);
  }

  lemma RebuiltPayload(j: Json)
    requires PayloadOk(j)
    ensures JObject(map["path" := JString(j.members["path"].s), "kind" := j.members["kind"],
                        "size" := j.members["size"], "sha256" := j.members["sha256"]]) == j
  {}

  method StringMap(j: Json, digests: bool) returns (r: Result<Json>)
    ensures r.Ok? <==> StringMapOk(j, digests)
    ensures r.Ok? ==> r.value == j
  {
    if !j.JObject? || j.members == map[] { return Err; }
    var result: Members, rest := map[], j.members.Keys;
    while rest != {}
      invariant rest <= j.members.Keys && result.Keys == j.members.Keys - rest
      invariant forall key | key in result ::
                  result[key] == j.members[key] && key != "" && IsText(j.members[key])
                  && (digests ==> IsHexText(j.members[key], 64))
      decreases |rest|
    {
      var key :| key in rest;
      rest := rest - {key};
      if key == "" || !IsText(j.members[key]) || (digests && !IsHexText(j.members[key], 64)) { return Err; }
      result := result[key := j.members[key]];
    }
    assert result == j.members;
    return Ok(JObject(result));
  }

  method ValidateManifest(host: Host, raw: Json) returns (r: Result<Json>)
    ensures r == ManifestOf(host, raw)
  {
    if !raw.JObject? { return Err; }
    var m := raw.members;
    if !(m.Keys <= ALLOWED_FIELDS) || !SchemaOk(Get(m, "schema_version")) { return Err; }
    if !IsHexText(Get(m, "source_sha"), 40) || !IsHexText(Get(m, "source_tree"), 40) { return Err; }
    if !ProducerOk(Get(m, "producer")) || !Get(m, "payloads").JArray? { return Err; }
    var payloads := ValidatePayloads(Get(m, "payloads").items, host.fold);
    if payloads.Err? { return Err; }
    var criticalInputs := StringMap(Get(m, "critical_inputs"), true);
    if criticalInputs.Err? { return Err; }
    var toolchain := StringMap(Get(m, "toolchain"), false);
    if toolchain.Err? { return Err; }
    var lockfiles := StringMap(Get(m, "lockfiles"), true);
    if lockfiles.Err? { return Err; }
    if !ImageOk(Get(m, "image_digest"), payloads.value) || !TauriOk(Get(m, "tauri"), payloads.value) { return Err; }
    var normalized := Normalized(m, payloads.value, criticalInputs.value, toolchain.value, lockfiles.value);
    RequiredPresent(m);
    NormalizedIsBody(m);
    var expected := JString(host.digest(JObject(normalized)));
    var supplied := Get(m, "manifest_sha256");
    if !supplied.JNull? && supplied != expected { return Err; }
    return Ok(JObject(normalized["manifest_sha256" := expected]));
  }

  function RequiredPart(m: Members, payloads: seq<Json>, criticalInputs: Json, toolchain: Json,
                        lockfiles: Json): Members {
    map["schema_version" := JInt(SCHEMA_VERSION), "source_sha" := Get(m, "source_sha"),
        "source_tree" := Get(m, "source_tree"), "producer" := Get(m, "producer"),
        "critical_inputs" := criticalInputs, "toolchain" := toolchain, "lockfiles" := lockfiles,
        "payloads" := JArray(Sort(PayloadKey, payloads))]
  }

  function WithOptional(fields: Members, m: Members, field: string): Members {
    if Get(m, field).JNull? then fields else fields[field := Get(m, field)]
  }

  /** The normalized fields, assembled from the checked parts. */
  function Normalized(m: Members, payloads: seq<Json>, criticalInputs: Json, toolchain: Json,
                      lockfiles: Json): Members {
    WithOptional(WithOptional(RequiredPart(m, payloads, criticalInputs, toolchain, lockfiles), m, "image_digest"), m,
                 "tauri")
  }

  const REQUIRED_FIELDS: set<string> := {
    "schema_version", "source_sha", "source_tree", "producer", "critical_inputs", "toolchain", "lockfiles", "payloads"}

  lemma RequiredValue(m: Members, payloads: seq<Json>, c: Json, t: Json, l: Json, key: string)
    ensures var n := RequiredPart(m, payloads, c, t, l);
      && (key in n <==> key in REQUIRED_FIELDS)
      && (key in n ==> n[key] == if key == "schema_version" then JInt(SCHEMA_VERSION)
                                 else if key == "payloads" then JArray(Sort(PayloadKey, payloads))
                                 else if key == "critical_inputs" then c
                                 else if key == "toolchain" then t
                                 else if key == "lockfiles" then l
                                 else Get(m, key))
  {}

  lemma NormalizedValue(m: Members, payloads: seq<Json>, c: Json, t: Json, l: Json, key: string)
    ensures var n := Normalized(m, payloads, c, t, l); var base := RequiredPart(m, payloads, c, t, l);
      && (key in n <==> key in base || ((key == "image_digest" || key == "tauri") && !Get(m, key).JNull?))
      && (key in n ==> n[key] == if key != "image_digest" && key != "tauri" then Get(base, key)
                                 else if Get(m, key).JNull? then Get(base, key) else Get(m, key))
  {}

  lemma RequiredPresent(m: Members)
    requires SchemaOk(Get(m, "schema_version")) && ProducerOk(Get(m, "producer")) && Get(m, "payloads").JArray?
    requires IsHexText(Get(m, "source_sha"), 40) && IsHexText(Get(m, "source_tree"), 40)
    requires StringMapOk(Get(m, "critical_inputs"), true) && StringMapOk(Get(m, "toolchain"), false)
    requires StringMapOk(Get(m, "lockfiles"), true)
    ensures forall key | key in REQUIRED_FIELDS :: !Get(m, key).JNull?
  {}

  lemma NormalizedIsBody(m: Members)
    requires m.Keys <= ALLOWED_FIELDS && forall key | key in REQUIRED_FIELDS :: !Get(m, key).JNull?
    requires Get(m, "payloads").JArray?
    ensures Normalized(m, Items(m), Get(m, "critical_inputs"), Get(m, "toolchain"), Get(m, "lockfiles"))
            == Body(m).members
  {
    var n := Normalized(m, Items(m), Get(m, "critical_inputs"), Get(m, "toolchain"), Get(m, "lockfiles"));
    var body := Body(m).members;
    forall key ensures (key in n <==> key in body) && (key in n ==> n[key] == body[key]) {
      RequiredValue(m, Items(m), Get(m, "critical_inputs"), Get(m, "toolchain"), Get(m, "lockfiles"), key);
      NormalizedValue(m, Items(m), Get(m, "critical_inputs"), Get(m, "toolchain"), Get(m, "lockfiles"), key);
      assert key in ALLOWED_FIELDS <==>
             key in REQUIRED_FIELDS || key == "image_digest" || key == "tauri" || key == "manifest_sha256";
    }
    assert n.Keys == body.Keys;
  }

  // ----- Idempotence

  lemma PayloadPathsDiffer(items: seq<Json>, fold: string -> string)
    requires PayloadsOk(items, fold)
    ensures DistinctKeys(PayloadKey, items)
  {
    forall i, k | 0 <= i < k < |items| ensures PayloadKey(items[i]) != PayloadKey(items[k]) {
      if PayloadKey(items[i]) == PayloadKey(items[k]) {
        CodesInjective(PayloadPath(items[i]), PayloadPath(items[k]));
        assert false;
      }
    }
  }

  lemma SortedMembers(items: seq<Json>)
    ensures forall j :: j in Sort(PayloadKey, items) <==> j in items
  {
    forall j ensures j in Sort(PayloadKey, items) <==> j in items {
      MultisetMember(Sort(PayloadKey, items), j);
      MultisetMember(items, j);
    }
  }

  /** Sorting keeps the payloads acceptable, and is settled after the first time. */
  lemma SortedPayloads(items: seq<Json>, fold: string -> string)
    requires PayloadsOk(items, fold)
    ensures PayloadsOk(Sort(PayloadKey, items), fold)
    ensures Sort(PayloadKey, Sort(PayloadKey, items)) == Sort(PayloadKey, items)
  {
    var sorted := Sort(PayloadKey, items);
    PayloadPathsDiffer(items, fold);
    SortAscending(PayloadKey, items);
    SortFixed(PayloadKey, sorted);
    AscendingIrreflexive(PayloadKey, sorted);
    SortedMembers(items);
    assert items[0] in sorted;
    forall i, k | 0 <= i < k < |sorted| ensures fold(PayloadPath(sorted[i])) != fold(PayloadPath(sorted[k])) {
      assert sorted[i] in items && sorted[k] in items;
      var a :| 0 <= a < |items| && items[a] == sorted[i];
      var b :| 0 <= b < |items| && items[b] == sorted[k];
      assert a != b;
    }
  }

  predicate PlainField(key: string) { key != "manifest_sha256" && key != "schema_version" && key != "payloads" }

  /** The same plain fields and the same payloads in another order. */
  ghost predicate SameUpToOrder(m: Members, n: Members) {
    && (forall key | PlainField(key) :: Get(m, key) == Get(n, key))
    && Get(m, "payloads").JArray? && Get(n, "payloads").JArray? && forall j :: j in Items(n) <==> j in Items(m)
  }

  lemma SameFields(host: Host, m: Members, n: Members)
    requires FieldsOk(host, m) && SameUpToOrder(m, n) && n.Keys <= ALLOWED_FIELDS
    requires SchemaOk(Get(n, "schema_version")) && PayloadsOk(Items(n), host.fold)
    ensures FieldsOk(host, n)
  {
    assert PlainField("source_sha") && PlainField("source_tree") && PlainField("producer");
    assert PlainField("critical_inputs") && PlainField("toolchain") && PlainField("lockfiles");
    assert PlainField("image_digest") && PlainField("tauri");
  }

  /** A normalized manifest is accepted and is its own normal form. */
  lemma NormalFormSettles(host: Host, raw: Json)
    requires Accepted(host, raw)
    ensures Accepted(host, NormalForm(host, raw))
    ensures NormalForm(host, NormalForm(host, raw)) == NormalForm(host, raw)
  {
    var m, n := raw.members, NormalForm(host, raw).members;
    NormalFields(host, raw);
    SortedPayloads(Items(m), host.fold);
    SortedMembers(Items(m));
    SameFields(host, m, n);
    BodySettles(m, n);
  }

  /** Validating a validated manifest changes nothing. */
  lemma ManifestSettles(host: Host, raw: Json)
    requires ManifestOf(host, raw).Ok?
    ensures ManifestOf(host, ManifestOf(host, raw).value) == ManifestOf(host, raw)
  {
    NormalFormSettles(host, raw);
  }

  /** What the digest field adds to the body. */
  lemma NormalParts(host: Host, raw: Json, key: string)
    requires raw.JObject?
    ensures var body, n := Body(raw.members).members, NormalForm(host, raw).members;
      && n.Keys == body.Keys + {"manifest_sha256"}
      && Get(n, "manifest_sha256") == JString(host.digest(Body(raw.members)))
      && (key in body ==> key in n && n[key] == body[key])
  {}

  lemma BodyPart(m: Members, key: string)
    ensures var body := Body(m).members;
      && (key in body <==> key in m && key != "manifest_sha256" && !m[key].JNull?)
      && (key in body ==> body[key] == FieldValue(m, key))
  {}

  lemma NormalFields(host: Host, raw: Json)
    requires Accepted(host, raw)
    ensures var m, n := raw.members, NormalForm(host, raw).members;
      && n.Keys <= ALLOWED_FIELDS
      && (forall key | PlainField(key) :: Get(m, key) == Get(n, key))
      && Get(n, "schema_version") == JInt(SCHEMA_VERSION)
      && Get(n, "payloads") == JArray(Sort(PayloadKey, Items(m)))
      && Get(n, "manifest_sha256") == JString(host.digest(Body(m)))
      && (forall key | key in Body(m).members :: key in n && n[key] == Body(m).members[key])
      && n.Keys == Body(m).members.Keys + {"manifest_sha256"}
  {
    var m, n := raw.members, NormalForm(host, raw).members;
    forall key ensures key in Body(m).members ==> key in n && n[key] == Body(m).members[key] {
      NormalParts(host, raw, key);
    }
    forall key | PlainField(key) ensures Get(m, key) == Get(n, key) {
      NormalParts(host, raw, key);
      BodyPart(m, key);
    }
    NormalParts(host, raw, "schema_version");
    BodyPart(m, "schema_version");
    NormalParts(host, raw, "payloads");
    BodyPart(m, "payloads");
    assert "manifest_sha256" in ALLOWED_FIELDS;
  }

  lemma BodySettles(m: Members, n: Members)
    requires n.Keys == Body(m).members.Keys + {"manifest_sha256"}
    requires forall key | key in Body(m).members :: key in n && n[key] == Body(m).members[key]
    requires Get(n, "schema_version") == JInt(SCHEMA_VERSION)
    requires Get(n, "payloads") == JArray(Sort(PayloadKey, Items(m)))
    requires Sort(PayloadKey, Sort(PayloadKey, Items(m))) == Sort(PayloadKey, Items(m))
    ensures Body(n) == Body(m)
  {
    ItemsSettle(m, n);
    forall key ensures (key in Body(m).members <==> key in Body(n).members)
                       && (key in Body(m).members ==> Body(m).members[key] == Body(n).members[key])
    {
      FieldSettles(m, n, key);
    }
    SameMembers(Body(m).members, Body(n).members);
  }

  lemma ItemsSettle(m: Members, n: Members)
    requires Get(n, "payloads") == JArray(Sort(PayloadKey, Items(m)))
    ensures Items(n) == Sort(PayloadKey, Items(m))
  {}

  lemma FieldSettles(m: Members, n: Members, key: string)
    requires n.Keys == Body(m).members.Keys + {"manifest_sha256"}
    requires key in Body(m).members ==> key in n && n[key] == FieldValue(m, key)
    requires Items(n) == Sort(PayloadKey, Items(m))
    requires Sort(PayloadKey, Sort(PayloadKey, Items(m))) == Sort(PayloadKey, Items(m))
    ensures key in Body(m).members <==> key in Body(n).members
    ensures key in Body(m).members ==> Body(n).members[key] == Body(m).members[key]
  {}
}
