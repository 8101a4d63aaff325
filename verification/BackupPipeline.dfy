// From a local backup bundle to an encrypted artifact and back
// (scripts/local_runtime.py, scripts/disaster_recovery.py).
//
// A bundle is a directory name and its files. Serializers are arbitrary
// functions with the inverse laws stated in Codec.Valid.
module BackupPipeline {
  import opened Options
  import opened Text
  import Inventory
  import SealedFile

  type Bytes = SealedFile.Bytes

  datatype Json = Null | Bool(flag: bool) | Int(number: int) | Str(text: string) | Arr(items: seq<Json>) | Obj(fields: map<string, Json>)

  datatype TarKind = TarDirectory | TarFile | TarOther
  // A member's path is a directory name and, for files, a file name below it.
  datatype TarMember = TarMember(directory: string, kind: TarKind, file: FileName, content: Bytes)

  datatype Codec = Codec(
    utf8: string -> Bytes, text: Bytes -> Option<string>,
    render: Json -> Bytes, parse: Bytes -> Option<Json>,
    tar: seq<TarMember> -> Bytes, untar: Bytes -> Option<seq<TarMember>>,
    rawTar: seq<Inventory.Member> -> Bytes, rawMembers: Bytes -> Option<seq<Inventory.Member>>,
    sha: Bytes -> string, inventorySha: Inventory.Sha256)
  {
    ghost predicate Valid() {
      && (forall s :: text(utf8(s)) == Some(s))
      && (forall ms :: untar(tar(ms)) == Some(ms) && tar(ms) != [])
      && (forall ms :: rawMembers(rawTar(ms)) == Some(ms))
      && (forall b :: Inventory.IsSha256(sha(b))) && inventorySha.Valid()
    }
  }

  const FORMAT_VERSION := 2
  const MAX_JSON_BYTES := 1024 * 1024

  // The file names of a bundle: three artifacts with their checksum files and
  // the receipt. Any other name is Foreign.
  datatype Artifact = Dump | Manifest | Raw {
    function Name(): string {
      match this
      case Dump => "database.dump"
      case Manifest => "manifest.json"
      case Raw => "raw-storage.tar.gz"
    }
  }
  datatype FileName = Content(artifact: Artifact) | Checksum(artifact: Artifact) | Receipt | Foreign(name: string)

  const FILE_NAMES: set<FileName> :=
    {Content(Dump), Checksum(Dump), Content(Manifest), Checksum(Manifest), Content(Raw), Checksum(Raw), Receipt}
  // sorted(BACKUP_FILE_NAMES)
  const SORTED_NAMES: seq<FileName> :=
    [Content(Dump), Checksum(Dump), Content(Manifest), Checksum(Manifest), Content(Raw), Checksum(Raw), Receipt]

  type Files = map<FileName, Bytes>

  datatype Bundle = Bundle(name: string, files: Files)

  const PREFIX := "founderos-"
  const PARTIAL := ".partial"

  predicate EndsWith(s: string, suffix: string) { |suffix| <= |s| && s[|s| - |suffix|..] == suffix }

  predicate BundleName(name: string) { PREFIX <= name && !EndsWith(name, PARTIAL) }

  // ---- Reading metadata ----

  predicate Is(fields: map<string, Json>, key: string, value: Json) { key in fields && fields[key] == value }

  function RequiredMapping(fields: map<string, Json>, key: string): Option<map<string, Json>> {
    if key in fields && fields[key].Obj? then Some(fields[key].fields) else None
  }

  function RequiredText(fields: map<string, Json>, key: string): Option<string> {
    if key in fields && fields[key].Str? && Strip(fields[key].text) != "" then Some(Strip(fields[key].text)) else None
  }

  function RequiredSha256(fields: map<string, Json>, key: string): Option<string> {
    var t := RequiredText(fields, key);
    if t.Some? && Inventory.IsSha256(t.value) then t else None
  }

  function RequiredInt(fields: map<string, Json>, key: string): Option<nat> {
    if key in fields && fields[key].Int? && fields[key].number >= 0 then Some(fields[key].number) else None
  }

  function ReadJson(codec: Codec, file: Bytes): Option<map<string, Json>> {
    if |file| > MAX_JSON_BYTES then None
    else
      var value := codec.parse(file);
      if value.Some? && value.value.Obj? then Some(value.value.fields) else None
  }

  function WordEnd(s: string): (n: nat)
    ensures n <= |s|
  {
    if s == [] || IsSpace(s[0]) then 0 else 1 + WordEnd(s[1..])
  }

  // Python's `s.split()`: the maximal runs of non-space characters.
  function Words(s: string): seq<string>
    decreases |s|
  {
    if s == [] then []
    else if IsSpace(s[0]) then Words(s[1..])
    else [s[..WordEnd(s)]] + Words(s[WordEnd(s)..])
  }

  function ChecksumLine(digest: string, name: string): string { digest + "  " + name + "\n" }

  // The digest a checksum file vouches for, if it matches the file beside it.
  function VerifyChecksum(codec: Codec, files: Files, a: Artifact): Option<string>
    requires Content(a) in files && Checksum(a) in files
  {
    var line := codec.text(files[Checksum(a)]);
    if line == None then None
    else
      var parts := Words(Strip(line.value));
      if |parts| != 2 || parts[1] != a.Name() || !Inventory.IsSha256(parts[0]) then None
      else if parts[0] != codec.sha(files[Content(a)]) then None
      else Some(parts[0])
  }

  predicate VerifiedReceipt(receipt: map<string, Json>) {
    && Is(receipt, "bundle_format_version", Int(FORMAT_VERSION))
    && Is(receipt, "status", Str("verified"))
    && Is(receipt, "manifest", Str(Manifest.Name()))
    && Is(receipt, "database_restore_verified", Bool(true))
    && Is(receipt, "credential_decryptability_verified", Bool(true))
    && Is(receipt, "backup_credential_decryptability_verified", Bool(true))
    && Is(receipt, "temporary_database_dropped", Bool(true))
    && Is(receipt, "raw_storage_archive_verified", Bool(true))
    && Is(receipt, "checksums_verified", Bool(true))
  }

  predicate ManifestArtifact(codec: Codec, files: Files, metadata: map<string, Json>, a: Artifact)
    requires Content(a) in files && Checksum(a) in files
  {
    var checksum := VerifyChecksum(codec, files, a);
    && Is(metadata, "artifact", Str(a.Name()))
    && checksum.Some? && RequiredSha256(metadata, "sha256") == checksum
    && RequiredInt(metadata, "bytes") == Some(|files[Content(a)]|)
  }

  // The raw-storage figures a manifest claims.
  function ClaimedSummary(raw: map<string, Json>): Option<Inventory.Summary> {
    var files, directories := RequiredInt(raw, "file_count"), RequiredInt(raw, "directory_count");
    var bytes, digest := RequiredInt(raw, "total_bytes"), RequiredSha256(raw, "inventory_sha256");
    if RequiredText(raw, "source_state") == None || files == None || directories == None || bytes == None || digest == None
    then None
    else Some(Inventory.Summary(files.value, directories.value, bytes.value, digest.value))
  }

  predicate RawArchiveAccepted(codec: Codec, archive: Bytes, expected: Inventory.Summary) {
    var members := codec.rawMembers(archive);
    members.Some? && Inventory.Accepts(codec.inventorySha, members.value, expected)
  }

  // The digest of the manifest of a bundle that passes every check; None for one that does not.
  function VerifyLocalBackupBundle(codec: Codec, bundle: Bundle): Option<string> {
    if !BundleName(bundle.name) || bundle.files.Keys != FILE_NAMES then None
    else
      var files := bundle.files;
      var receipt := ReadJson(codec, files[Receipt]);
      if receipt == None || !VerifiedReceipt(receipt.value) then None
      else
        var digest := VerifyChecksum(codec, files, Manifest);
        if digest == None || RequiredSha256(receipt.value, "manifest_sha256") != digest then None
        else
          var manifest := ReadJson(codec, files[Content(Manifest)]);
          if manifest == None || !Is(manifest.value, "bundle_format_version", Int(FORMAT_VERSION)) then None
          else
            var database, raw := RequiredMapping(manifest.value, "database"), RequiredMapping(manifest.value, "raw_storage");
            if database == None || raw == None then None
            else if !ManifestArtifact(codec, files, database.value, Dump) then None
            else if !ManifestArtifact(codec, files, raw.value, Raw) then None
            else
              var expected := ClaimedSummary(raw.value);
              if expected == None || !RawArchiveAccepted(codec, files[Content(Raw)], expected.value) then None
              else digest
  }

  // ---- The producer ----

  lemma {:induction false} WordEndAt(a: string, rest: string)
    requires forall i :: 0 <= i < |a| ==> !IsSpace(a[i])
    requires rest == [] || IsSpace(rest[0])
    ensures WordEnd(a + rest) == |a|
  {
    if a == [] {
      assert a + rest == rest;
    } else {
      assert (a + rest)[1..] == a[1..] + rest;
      WordEndAt(a[1..], rest);
    }
  }

  lemma StrippedLine(digest: string, name: string)
    requires digest != "" && name != "" && NoSpaces(digest) && NoSpaces(name)
    ensures Strip(ChecksumLine(digest, name)) == digest + ("  " + name)
  {
    var line, kept := ChecksumLine(digest, name), digest + ("  " + name);
    assert line == kept + "\n" && line[..|line| - 1] == kept;
    assert kept[0] == digest[0] && kept[|kept| - 1] == name[|name| - 1];
    assert LStrip(line) == line && RStrip(line) == kept;
  }

  lemma OneWord(name: string)
    requires name != "" && NoSpaces(name)
    ensures Words(name) == [name]
  {
    WordEndAt(name, "");
    assert name + "" == name && name[..|name|] == name && name[|name|..] == "";
    assert Words("") == [];
  }

  lemma ChecksumWords(digest: string, name: string)
    requires digest != "" && name != "" && NoSpaces(digest) && NoSpaces(name)
    ensures Words(Strip(ChecksumLine(digest, name))) == [digest, name]
  {
    StrippedLine(digest, name);
    var gap, blank := "  " + name, " " + name;
    WordEndAt(digest, gap);
    assert (digest + gap)[..|digest|] == digest && (digest + gap)[|digest|..] == gap;
    assert gap[1..] == blank && blank[1..] == name;
    OneWord(name);
    assert Words(gap) == Words(blank) == Words(name);
  }

  ghost predicate NoSpaces(s: string) { forall i :: 0 <= i < |s| ==> !IsSpace(s[i]) }

  lemma CodecLaws(codec: Codec, line: string, file: Bytes)
    requires codec.Valid()
    ensures codec.text(codec.utf8(line)) == Some(line)
    ensures Inventory.IsSha256(codec.sha(file)) && codec.sha(file) != "" && NoSpaces(codec.sha(file))
  {
    assert Inventory.IsSha256(codec.sha(file));
  }

  lemma WrittenChecksumVerifies(codec: Codec, files: Files, a: Artifact)
    requires codec.Valid() && Content(a) in files && Checksum(a) in files
    requires files[Checksum(a)] == codec.utf8(ChecksumLine(codec.sha(files[Content(a)]), a.Name()))
    ensures VerifyChecksum(codec, files, a) == Some(codec.sha(files[Content(a)]))
  {
    hide Codec.Valid, ChecksumLine, Words, Strip, Inventory.IsSha256;
    var digest := codec.sha(files[Content(a)]);
    CodecLaws(codec, ChecksumLine(digest, a.Name()), files[Content(a)]);
    ChecksumWords(digest, a.Name());
  }

  // What the earlier steps of a backup hand over: the database dump and its
  // restore proof, the raw-storage archive, and the scans before and after it.
  datatype Sources = Sources(
    dump: Bytes, proof: map<string, Json>, restoreFailures: nat, verifiedFields: nat, fixtureFields: nat,
    credentials: Json, rawArchive: Bytes, sourceState: string,
    before: Inventory.Summary, stateAfter: string, after: Inventory.Summary)

  // Which of the steps this model does not look into succeeded: the checks of
  // ports, settings, database, tools and credentials and the first scan; the
  // dump; its listing; the comparison of major versions; the comparison of the
  // restored database; the writing of the raw archive; the second scan.
  datatype Attempt = Attempt(prepared: bool, dumped: bool, listed: bool, sameMajor: bool, restored: bool, archived: bool, rescanned: bool)

  predicate Completed(a: Attempt) { a.prepared && a.dumped && a.listed && a.sameMajor && a.restored && a.archived && a.rescanned }

  function ManifestFields(codec: Codec, s: Sources, createdAt: string): map<string, Json> {
    map[
      "bundle_format_version" := Int(FORMAT_VERSION),
      "created_at" := Str(createdAt),
      "database" := Obj(s.proof + map["artifact" := Str(Dump.Name()), "bytes" := Int(|s.dump|), "sha256" := Str(codec.sha(s.dump))]),
      "credential_decryptability" := s.credentials,
      "raw_storage" := Obj(RawFields(codec, s))]
  }

  function RawFields(codec: Codec, s: Sources): map<string, Json> {
    map[
      "artifact" := Str(Raw.Name()), "bytes" := Int(|s.rawArchive|), "sha256" := Str(codec.sha(s.rawArchive)),
      "source_state" := Str(s.sourceState), "file_count" := Int(s.before.files),
      "directory_count" := Int(s.before.directories), "total_bytes" := Int(s.before.bytes),
      "inventory_sha256" := Str(s.before.digest), "symlinks_allowed" := Bool(false)]
  }

  function ReceiptFields(s: Sources, manifestDigest: string, verifiedAt: string): map<string, Json> {
    map[
      "bundle_format_version" := Int(FORMAT_VERSION), "status" := Str("verified"), "verified_at" := Str(verifiedAt),
      "manifest" := Str(Manifest.Name()), "manifest_sha256" := Str(manifestDigest),
      "database_restore_verified" := Bool(true), "credential_decryptability_verified" := Bool(true),
      "backup_credential_decryptability_verified" := Bool(s.restoreFailures == 0),
      "encrypted_credential_fields_verified" := Int(s.verifiedFields),
      "test_fixture_credential_fields_ignored" := Int(s.fixtureFields),
      "temporary_database_dropped" := Bool(true), "raw_storage_archive_verified" := Bool(true),
      "checksums_verified" := Bool(true)]
  }

  // Writes the seven files step by step and publishes the bundle only if every
  // check on the way passes.
  method CreateLocalBackup(codec: Codec, a: Attempt, s: Sources, stamp: string, suffix: string, createdAt: string, verifiedAt: string)
    returns (published: Option<Bundle>)
    requires codec.Valid() && '/' !in stamp
    requires |suffix| == 8 && forall i :: 0 <= i < 8 ==> '0' <= suffix[i] <= '9' || 'a' <= suffix[i] <= 'f'
    ensures published.Some? ==> Published(codec, s, published.value, createdAt, verifiedAt)
    ensures published.Some? <==>
      var manifest := Obj(ManifestFields(codec, s, createdAt));
      var receipt := Obj(ReceiptFields(s, codec.sha(codec.render(manifest)), verifiedAt));
      && Completed(a)
      && s.restoreFailures == 0 && RawArchiveAccepted(codec, s.rawArchive, s.before) && s.sourceState == s.stateAfter && s.before == s.after
      && codec.parse(codec.render(manifest)) == Some(manifest) && codec.parse(codec.render(receipt)) == Some(receipt)
  {
    hide ManifestFields, ReceiptFields, RawArchiveAccepted, ChecksumLine, VerifyChecksum, BundleName;
    if !a.prepared {
      return None;
    }
    var name := PREFIX + stamp + "-" + suffix;
    if !a.dumped || !a.listed || !a.sameMajor {
      return None;
    }
    // Restoring the dump also fails when a stored credential cannot be decrypted.
    if !a.restored || s.restoreFailures > 0 {
      return None;
    }
    var files: Files := map[Content(Dump) := s.dump];
    files := files[Checksum(Dump) := codec.utf8(ChecksumLine(codec.sha(s.dump), Dump.Name()))];
    files := files[Content(Raw) := s.rawArchive];
    if !a.archived || !RawArchiveAccepted(codec, s.rawArchive, s.before) {
      return None;
    }
    if !a.rescanned || s.sourceState != s.stateAfter || s.before != s.after {
      return None;
    }
    files := files[Checksum(Raw) := codec.utf8(ChecksumLine(codec.sha(s.rawArchive), Raw.Name()))];
    var manifest := Obj(ManifestFields(codec, s, createdAt));
    files := files[Content(Manifest) := codec.render(manifest)];
    files := files[Checksum(Manifest) := codec.utf8(ChecksumLine(codec.sha(files[Content(Manifest)]), Manifest.Name()))];
    if codec.parse(files[Content(Manifest)]) != Some(manifest) {
      return None;
    }
    var receipt := Obj(ReceiptFields(s, codec.sha(files[Content(Manifest)]), verifiedAt));
    files := files[Receipt := codec.render(receipt)];
    if codec.parse(files[Receipt]) != Some(receipt) {
      return None;
    }
    NameIsPublishable(stamp, suffix);
    assert files == Written(codec, s, createdAt, verifiedAt);
    WrittenIsPublished(codec, s, name, createdAt, verifiedAt);
    published := Some(Bundle(name, files));
  }

  // The seven files of a bundle.
  function Written(codec: Codec, s: Sources, createdAt: string, verifiedAt: string): Files {
    var manifest := codec.render(Obj(ManifestFields(codec, s, createdAt)));
    map[Content(Dump) := s.dump, Checksum(Dump) := codec.utf8(ChecksumLine(codec.sha(s.dump), Dump.Name())),
        Content(Raw) := s.rawArchive, Checksum(Raw) := codec.utf8(ChecksumLine(codec.sha(s.rawArchive), Raw.Name())),
        Content(Manifest) := manifest, Checksum(Manifest) := codec.utf8(ChecksumLine(codec.sha(manifest), Manifest.Name())),
        Receipt := codec.render(Obj(ReceiptFields(s, codec.sha(manifest), verifiedAt)))]
  }

  lemma WrittenIsPublished(codec: Codec, s: Sources, name: string, createdAt: string, verifiedAt: string)
    requires codec.Valid() && BundleName(name) && '/' !in name
    requires s.restoreFailures == 0 && RawArchiveAccepted(codec, s.rawArchive, s.before)
    requires var manifest := Obj(ManifestFields(codec, s, createdAt));
             var receipt := Obj(ReceiptFields(s, codec.sha(codec.render(manifest)), verifiedAt));
             codec.parse(codec.render(manifest)) == Some(manifest) && codec.parse(codec.render(receipt)) == Some(receipt)
    ensures Published(codec, s, Bundle(name, Written(codec, s, createdAt, verifiedAt)), createdAt, verifiedAt)
  {
    hide ManifestFields, ReceiptFields, RawArchiveAccepted, ChecksumLine, VerifyChecksum, BundleName;
    var files := Written(codec, s, createdAt, verifiedAt);
    WrittenChecksumVerifies(codec, files, Dump);
    WrittenChecksumVerifies(codec, files, Raw);
    WrittenChecksumVerifies(codec, files, Manifest);
    assert files.Keys == FILE_NAMES;
  }

  lemma EndsWithLast(s: string, suffix: string)
    requires suffix != []
    ensures EndsWith(s, suffix) ==> s[|s| - 1] == suffix[|suffix| - 1]
  {
    if EndsWith(s, suffix) { assert s[|s| - 1] == s[|s| - |suffix|..][|suffix| - 1]; }
  }

  lemma NameIsPublishable(stamp: string, suffix: string)
    requires |suffix| == 8 && forall i :: 0 <= i < 8 ==> '0' <= suffix[i] <= '9' || 'a' <= suffix[i] <= 'f'
    ensures BundleName(PREFIX + stamp + "-" + suffix)
    ensures '/' !in stamp ==> '/' !in PREFIX + stamp + "-" + suffix
  {
    var name := PREFIX + stamp + "-" + suffix;
    assert name == PREFIX + (stamp + "-" + suffix);
    assert name[|name| - 1] == suffix[7];
    EndsWithLast(name, PARTIAL);
  }

  // The facts about a published bundle that its consumer relies on.
  ghost predicate Published(codec: Codec, s: Sources, b: Bundle, createdAt: string, verifiedAt: string) {
    && BundleName(b.name) && '/' !in b.name && b.files.Keys == FILE_NAMES
    && b.files[Content(Dump)] == s.dump && b.files[Content(Raw)] == s.rawArchive
    && s.restoreFailures == 0 && RawArchiveAccepted(codec, s.rawArchive, s.before)
    && codec.parse(b.files[Content(Manifest)]) == Some(Obj(ManifestFields(codec, s, createdAt)))
    && codec.parse(b.files[Receipt])
       == Some(Obj(ReceiptFields(s, codec.sha(b.files[Content(Manifest)]), verifiedAt)))
    && VerifyChecksum(codec, b.files, Dump) == Some(codec.sha(s.dump))
    && VerifyChecksum(codec, b.files, Raw) == Some(codec.sha(s.rawArchive))
    && VerifyChecksum(codec, b.files, Manifest) == Some(codec.sha(b.files[Content(Manifest)]))
  }

  lemma TrimmedHash(digest: string)
    requires Inventory.IsSha256(digest)
    ensures Strip(digest) == digest
  {
    StripTrimmed(digest);
  }

  lemma DatabaseFieldsRead(codec: Codec, s: Sources, createdAt: string)
    requires codec.Valid()
    ensures var m := ManifestFields(codec, s, createdAt);
            && Is(m, "bundle_format_version", Int(FORMAT_VERSION))
            && RequiredMapping(m, "database").Some?
            && var d := RequiredMapping(m, "database").value;
               && Is(d, "artifact", Str(Dump.Name()))
               && RequiredSha256(d, "sha256") == Some(codec.sha(s.dump))
               && RequiredInt(d, "bytes") == Some(|s.dump|)
  {
    TrimmedHash(codec.sha(s.dump));
  }

  lemma RawArtifactRead(codec: Codec, s: Sources)
    requires codec.Valid()
    ensures var r := RawFields(codec, s);
            && Is(r, "artifact", Str(Raw.Name()))
            && RequiredSha256(r, "sha256") == Some(codec.sha(s.rawArchive))
            && RequiredInt(r, "bytes") == Some(|s.rawArchive|)
  {
    TrimmedHash(codec.sha(s.rawArchive));
  }

  lemma RawStateRead(codec: Codec, s: Sources)
    requires Inventory.IsSha256(s.before.digest) && s.sourceState in {"present", "missing"}
    ensures var r := RawFields(codec, s);
            && RequiredText(r, "source_state").Some?
            && RequiredSha256(r, "inventory_sha256") == Some(s.before.digest)
  {
    TrimmedHash(s.before.digest);
    StripTrimmed(s.sourceState);
  }

  lemma RawCountsRead(codec: Codec, s: Sources)
    ensures var r := RawFields(codec, s);
            && RequiredInt(r, "file_count") == Some(s.before.files)
            && RequiredInt(r, "directory_count") == Some(s.before.directories)
            && RequiredInt(r, "total_bytes") == Some(s.before.bytes)
  {
  }

  lemma RawFieldsRead(codec: Codec, s: Sources, createdAt: string)
    requires codec.Valid() && Inventory.IsSha256(s.before.digest) && s.sourceState in {"present", "missing"}
    ensures RequiredMapping(ManifestFields(codec, s, createdAt), "raw_storage") == Some(RawFields(codec, s))
    ensures ClaimedSummary(RawFields(codec, s)) == Some(s.before)
  {
    hide RequiredInt, RequiredText, RequiredSha256, RawFields;
    RawStateRead(codec, s);
    RawCountsRead(codec, s);
  }

  lemma ReceiptFieldsRead(s: Sources, digest: string, verifiedAt: string)
    requires s.restoreFailures == 0 && Inventory.IsSha256(digest)
    ensures VerifiedReceipt(ReceiptFields(s, digest, verifiedAt))
    ensures RequiredSha256(ReceiptFields(s, digest, verifiedAt), "manifest_sha256") == Some(digest)
  {
    TrimmedHash(digest);
  }

  predicate MetadataFits(b: Bundle)
    requires b.files.Keys == FILE_NAMES
  {
    |b.files[Content(Manifest)]| <= MAX_JSON_BYTES && |b.files[Receipt]| <= MAX_JSON_BYTES
  }

  // The consumer accepts a published bundle exactly if both metadata files are
  // within its size limit, which the producer does not check.
  lemma PublishedAccepted(codec: Codec, s: Sources, b: Bundle, createdAt: string, verifiedAt: string)
    requires codec.Valid() && Inventory.IsSha256(s.before.digest) && s.sourceState in {"present", "missing"}
    requires Published(codec, s, b, createdAt, verifiedAt)
    ensures VerifyLocalBackupBundle(codec, b)
            == if MetadataFits(b) then Some(codec.sha(b.files[Content(Manifest)])) else None
  {
    hide ManifestFields, RawFields, ReceiptFields, VerifyChecksum, RawArchiveAccepted, VerifiedReceipt, ClaimedSummary,
         RequiredSha256, RequiredInt, Is, RequiredMapping;
    DatabaseFieldsRead(codec, s, createdAt);
    RawArtifactRead(codec, s);
    RawFieldsRead(codec, s, createdAt);
    assert Inventory.IsSha256(codec.sha(b.files[Content(Manifest)]));
    ReceiptFieldsRead(s, codec.sha(b.files[Content(Manifest)]), verifiedAt);
  }

  // ---- A bundle its producer publishes and its consumer refuses ----

  // Tables named by the numbers below n.
  function Tables(n: nat): map<string, Json> { if n == 0 then map[] else Tables(n - 1)[Decimal(n - 1) := Int(0)] }

  lemma {:induction false} TableIsNew(n: nat, m: nat)
    requires n <= m
    ensures Decimal(m) !in Tables(n)
  {
    if n > 0 {
      TableIsNew(n - 1, m);
      if Decimal(m) == Decimal(n - 1) { DecimalInjective(m, n - 1); }
    }
  }

  lemma {:induction false} TableCount(n: nat)
    ensures |Tables(n)| == n
  {
    if n > 0 {
      hide Decimal;
      TableCount(n - 1);
      TableIsNew(n - 1, n - 1);
    }
  }

  // What JSON text has: it reads back, and every table of a manifest takes at least a byte.
  ghost predicate JsonText(codec: Codec) {
    && (forall f :: codec.parse(codec.render(Obj(f))) == Some(Obj(f)))
    && (forall f, d, t :: Is(f, "database", Obj(d)) && Is(d, "table_counts", Obj(t)) ==> |codec.render(Obj(f))| >= |t|)
  }

  // A database with more tables than the limit has bytes, and no raw storage.
  function Crowded(codec: Codec): Sources {
    var empty := Inventory.Summarize(codec.inventorySha, []);
    Sources([], map["table_counts" := Obj(Tables(MAX_JSON_BYTES + 1))], 0, 0, 0, Null, codec.rawTar([]), "missing", empty, "missing", empty)
  }

  lemma CrowdedManifest(codec: Codec, createdAt: string)
    requires JsonText(codec)
    ensures |codec.render(Obj(ManifestFields(codec, Crowded(codec), createdAt)))| > MAX_JSON_BYTES
  {
    hide Tables;
    TableCount(MAX_JSON_BYTES + 1);
    var s := Crowded(codec);
    var f := ManifestFields(codec, s, createdAt);
    var d := f["database"].fields;
    assert Is(f, "database", Obj(d));
    assert Is(d, "table_counts", Obj(Tables(MAX_JSON_BYTES + 1)));
  }

  lemma CrowdedIsSound(codec: Codec)
    requires codec.Valid()
    ensures var s := Crowded(codec);
            && RawArchiveAccepted(codec, s.rawArchive, s.before) && s.restoreFailures == 0 && s.sourceState == "missing"
            && Inventory.IsSha256(s.before.digest)
  {
    hide Tables, Inventory.InventoryText;
    assert Inventory.EntriesOf(codec.inventorySha, []) == Some([]);
  }

  const CROWDED_NAME: string := PREFIX + "1" + "-" + "00000000"

  lemma CrowdedName()
    ensures BundleName(CROWDED_NAME) && '/' !in CROWDED_NAME
  {
    NameIsPublishable("1", "00000000");
  }

  lemma ReadsBack(codec: Codec, fields: map<string, Json>)
    requires JsonText(codec)
    ensures codec.parse(codec.render(Obj(fields))) == Some(Obj(fields))
  {
  }

  lemma CrowdedIsPublished(codec: Codec, createdAt: string, verifiedAt: string)
    requires codec.Valid() && JsonText(codec)
    ensures Published(codec, Crowded(codec), Bundle(CROWDED_NAME, Written(codec, Crowded(codec), createdAt, verifiedAt)), createdAt, verifiedAt)
  {
    var s := Crowded(codec);
    CrowdedIsSound(codec);
    CrowdedName();
    hide CROWDED_NAME, ChecksumLine, VerifyChecksum;
    ReadsBack(codec, ManifestFields(codec, s, createdAt));
    ReadsBack(codec, ReceiptFields(s, codec.sha(codec.render(Obj(ManifestFields(codec, s, createdAt)))), verifiedAt));
    hide Crowded, ManifestFields, ReceiptFields, RawArchiveAccepted, BundleName, Codec.Valid, Published, Written, Inventory.IsSha256;
    hide JsonText;
    WrittenIsPublished(codec, s, CROWDED_NAME, createdAt, verifiedAt);
  }

  lemma WrittenNames(codec: Codec, s: Sources, createdAt: string, verifiedAt: string)
    ensures Written(codec, s, createdAt, verifiedAt).Keys == FILE_NAMES
    ensures Written(codec, s, createdAt, verifiedAt)[Content(Manifest)] == codec.render(Obj(ManifestFields(codec, s, createdAt)))
  {
    hide ManifestFields, ReceiptFields, ChecksumLine;
  }

  lemma OversizedBundle(codec: Codec, createdAt: string, verifiedAt: string)
    requires codec.Valid() && JsonText(codec)
    ensures var s := Crowded(codec);
            var b := Bundle(CROWDED_NAME, Written(codec, s, createdAt, verifiedAt));
            && Published(codec, s, b, createdAt, verifiedAt)
            && b.files.Keys == FILE_NAMES && !MetadataFits(b) && VerifyLocalBackupBundle(codec, b) == None
  {
    var s := Crowded(codec);
    CrowdedManifest(codec, createdAt);
    CrowdedIsSound(codec);
    CrowdedIsPublished(codec, createdAt, verifiedAt);
    WrittenNames(codec, s, createdAt, verifiedAt);
    hide Crowded, ManifestFields, VerifyLocalBackupBundle, Codec.Valid, Published, Written, Inventory.IsSha256, JsonText;
    PublishedAccepted(codec, s, Bundle(CROWDED_NAME, Written(codec, s, createdAt, verifiedAt)), createdAt, verifiedAt);
  }

  // ---- The bundle archive ----

  function FileMembers(b: Bundle, names: seq<FileName>): seq<TarMember>
    requires forall n :: n in names ==> n in b.files
  {
    if names == [] then []
    else [TarMember(b.name, TarFile, names[0], b.files[names[0]])] + FileMembers(b, names[1..])
  }

  function PackBundle(b: Bundle): seq<TarMember>
    requires b.files.Keys == FILE_NAMES
  {
    Packed(b, SORTED_NAMES)
  }

  function Packed(b: Bundle, names: seq<FileName>): seq<TarMember>
    requires forall n :: n in names ==> n in b.files
  {
    [TarMember(b.name, TarDirectory, Receipt, [])] + FileMembers(b, names)
  }

  method CreateBundleArchive(b: Bundle) returns (members: seq<TarMember>)
    requires b.files.Keys == FILE_NAMES
    ensures members == PackBundle(b)
  {
    members := ArchiveFiles(b, SORTED_NAMES);
  }

  method ArchiveFiles(b: Bundle, names: seq<FileName>) returns (members: seq<TarMember>)
    requires forall n :: n in names ==> n in b.files
    ensures members == Packed(b, names)
  {
    members := [TarMember(b.name, TarDirectory, Receipt, [])];
    assert names[0..] == names;
    for i := 0 to |names|
      invariant members + FileMembers(b, names[i..]) == Packed(b, names)
    {
      assert names[i..][1..] == names[i + 1..];
      members := members + [TarMember(b.name, TarFile, names[i], b.files[names[i]])];
    }
  }

  function Select(members: seq<TarMember>, kind: TarKind): (r: seq<TarMember>)
    ensures forall m :: m in r <==> m in members && m.kind == kind
  {
    if members == [] then []
    else (if members[0].kind == kind then [members[0]] else []) + Select(members[1..], kind)
  }

  function Contents(members: seq<TarMember>): (r: Files)
    ensures forall m :: m in members ==> m.file in r
    ensures forall n :: n in r ==> exists m :: m in members && m.file == n && m.content == r[n]
  {
    if members == [] then map[] else Contents(members[..|members| - 1])[members[|members| - 1].file := members[|members| - 1].content]
  }

  // The bundle in an archive of the expected structure: one directory, the
  // seven files below it and nothing else.
  function UnpackBundle(members: seq<TarMember>): Option<Bundle> { Unpacked(members, FILE_NAMES) }

  function Unpacked(members: seq<TarMember>, expected: set<FileName>): Option<Bundle> {
    var directories, files := Select(members, TarDirectory), Select(members, TarFile);
    if |directories| != 1 || |files| != |expected| || |members| != |directories| + |files| then None
    else
      var name := directories[0].directory;
      if '/' in name || !BundleName(name) then None
      else if (exists m :: m in files && m.directory != name) || (set m | m in files :: m.file) != expected then None
      else Some(Bundle(name, Contents(files)))
  }

  method ExtractBundleArchive(members: seq<TarMember>) returns (r: Option<Bundle>)
    ensures r == UnpackBundle(members)
  {
    r := ExtractFiles(members, FILE_NAMES);
  }

  method ExtractFiles(members: seq<TarMember>, expected: set<FileName>) returns (r: Option<Bundle>)
    ensures r == Unpacked(members, expected)
  {
    hide Select, Contents, BundleName;
    var directories, files := Select(members, TarDirectory), Select(members, TarFile);
    if |directories| != 1 || |files| != |expected| || |members| != |directories| + |files| {
      return None;
    }
    var name := directories[0].directory;
    if '/' in name || !BundleName(name) {
      return None;
    }
    if (exists m :: m in files && m.directory != name) || (set m | m in files :: m.file) != expected {
      return None;
    }
    var written := WriteFiles(files);
    return Some(Bundle(name, written));
  }

  method WriteFiles(files: seq<TarMember>) returns (written: Files)
    ensures written == Contents(files)
  {
    written := map[];
    for i := 0 to |files|
      invariant written == Contents(files[..i])
    {
      written := written[files[i].file := files[i].content];
      assert files[..i + 1][..i] == files[..i];
    }
    assert files[..|files|] == files;
  }

  // Whatever archive is accepted, it holds one directory and one file for each
  // expected name, with the contents that are written, and nothing else.
  lemma AcceptedArchive(members: seq<TarMember>, b: Bundle)
    requires UnpackBundle(members) == Some(b)
    ensures b.files.Keys == FILE_NAMES && |members| == 1 + |FILE_NAMES| && BundleName(b.name) && '/' !in b.name
    ensures forall n :: n in FILE_NAMES ==> TarMember(b.name, TarFile, n, b.files[n]) in members
  {
    UnpackedHolds(members, FILE_NAMES, b);
  }

  lemma UnpackedHolds(members: seq<TarMember>, expected: set<FileName>, b: Bundle)
    requires Unpacked(members, expected) == Some(b)
    ensures b.files.Keys == expected && |members| == 1 + |expected| && BundleName(b.name) && '/' !in b.name
    ensures forall n :: n in expected ==> TarMember(b.name, TarFile, n, b.files[n]) in members
  {
    hide Select, Contents, BundleName;
    var files := Select(members, TarFile);
    assert b.files == Contents(files);
    forall n | n in expected ensures n in b.files && TarMember(b.name, TarFile, n, b.files[n]) in members {
      var m :| m in files && m.file == n;
      assert n in Contents(files);
      var k :| k in files && k.file == n && k.content == b.files[n];
      assert k in members && k.kind == TarFile && k.directory == b.name;
      assert k == TarMember(b.name, TarFile, n, b.files[n]);
    }
  }

  lemma {:induction false} SelectFileMembers(b: Bundle, names: seq<FileName>)
    requires forall n :: n in names ==> n in b.files
    ensures Select(FileMembers(b, names), TarFile) == FileMembers(b, names)
    ensures Select(FileMembers(b, names), TarDirectory) == []
    ensures |FileMembers(b, names)| == |names|
    ensures forall i :: 0 <= i < |names| ==> FileMembers(b, names)[i] == TarMember(b.name, TarFile, names[i], b.files[names[i]])
  {
    if names != [] { SelectFileMembers(b, names[1..]); }
  }

  // The members written for names hold those files and no others.
  lemma PackedMembers(b: Bundle, names: seq<FileName>)
    requires forall n :: n in names ==> n in b.files
    ensures forall m :: m in FileMembers(b, names) ==>
              m.directory == b.name && m.file in names && m.content == b.files[m.file]
    ensures forall n :: n in names ==> TarMember(b.name, TarFile, n, b.files[n]) in FileMembers(b, names)
  {
    SelectFileMembers(b, names);
    var files := FileMembers(b, names);
    forall n | n in names ensures TarMember(b.name, TarFile, n, b.files[n]) in files {
      var i :| 0 <= i < |names| && names[i] == n;
      assert files[i] == TarMember(b.name, TarFile, n, b.files[n]);
    }
  }

  lemma PackedFiles(b: Bundle, names: seq<FileName>)
    requires forall n :: n in names <==> n in b.files
    ensures (set m | m in FileMembers(b, names) :: m.file) == b.files.Keys
    ensures Contents(FileMembers(b, names)) == b.files
  {
    hide FileMembers, Contents;
    var files := FileMembers(b, names);
    PackedMembers(b, names);
    forall n | n in b.files ensures n in Contents(files) && n in (set m | m in files :: m.file) {
      var m := TarMember(b.name, TarFile, n, b.files[n]);
      assert m in files && m.file == n;
    }
  }

  lemma PackedSelect(b: Bundle, names: seq<FileName>)
    requires forall n :: n in names ==> n in b.files
    ensures Select(Packed(b, names), TarFile) == FileMembers(b, names)
    ensures Select(Packed(b, names), TarDirectory) == [TarMember(b.name, TarDirectory, Receipt, [])]
    ensures |FileMembers(b, names)| == |names| && |Packed(b, names)| == 1 + |names|
  {
    hide FileMembers;
    SelectFileMembers(b, names);
    assert Packed(b, names)[1..] == FileMembers(b, names);
  }

  lemma UnpackedPacked(b: Bundle, names: seq<FileName>)
    requires (forall n :: n in names <==> n in b.files) && |names| == |b.files.Keys|
    requires BundleName(b.name) && '/' !in b.name
    ensures Unpacked(Packed(b, names), b.files.Keys) == Some(b)
  {
    hide Contents, BundleName, FileMembers, Select, Packed;
    PackedSelect(b, names);
    PackedFiles(b, names);
    PackedMembers(b, names);
  }

  // Unpacking restores a packed bundle, provided its name could be published.
  lemma UnpackPack(b: Bundle)
    requires b.files.Keys == FILE_NAMES && BundleName(b.name) && '/' !in b.name
    ensures UnpackBundle(PackBundle(b)) == Some(b)
  {
    UnpackedPacked(b, SORTED_NAMES);
  }

  // ---- Export and materialize ----

  // Verifies, packs, seals, and proves the artifact by opening it again.
  method ExportVerifiedBackup(codec: Codec, gcm: SealedFile.Gcm, key: Bytes, nonce: Bytes, b: Bundle, nameTaken: bool)
    returns (r: Option<Bytes>)
    requires codec.Valid() && gcm.Valid() && |nonce| == SealedFile.NONCE_BYTES && '/' !in b.name
    ensures r == if VerifyLocalBackupBundle(codec, b).Some? && !nameTaken
                 then Some(gcm.Seal(key, nonce, codec.tar(PackBundle(b)))) else None
  {
    var source := VerifyLocalBackupBundle(codec, b);
    if source == None || nameTaken {
      return None;
    }
    var members := CreateBundleArchive(b);
    var archive := codec.tar(members);
    var artifact := gcm.Seal(key, nonce, archive);
    var plain := SealedFile.Open(gcm, key, artifact);
    SealedFile.OpenSeal(gcm, key, nonce, archive);
    if plain.Refused? || codec.sha(plain.data) != codec.sha(archive) {
      return None;
    }
    var listed := codec.untar(plain.data);
    if listed == None {
      return None;
    }
    var restored := ExtractBundleArchive(listed.value);
    UnpackPack(b);
    if restored == None {
      return None;
    }
    var again := VerifyLocalBackupBundle(codec, restored.value);
    if again == None || again != source {
      return None;
    }
    return Some(artifact);
  }

  // Opens an artifact into a fresh directory; None leaves no directory behind.
  method MaterializeOffsiteBackup(codec: Codec, gcm: SealedFile.Gcm, key: Bytes, artifact: Bytes, outputTaken: bool)
    returns (r: Option<Bundle>)
    ensures r == if outputTaken then None else Materialized(codec, gcm, key, artifact)
  {
    if outputTaken {
      return None;
    }
    var archive := SealedFile.Open(gcm, key, artifact);
    if archive.Refused? {
      return None;
    }
    var members := codec.untar(archive.data);
    if members == None {
      return None;
    }
    var b := ExtractBundleArchive(members.value);
    if b == None || VerifyLocalBackupBundle(codec, b.value) == None {
      return None;
    }
    return b;
  }

  function Materialized(codec: Codec, gcm: SealedFile.Gcm, key: Bytes, artifact: Bytes): Option<Bundle> {
    var archive := SealedFile.Open(gcm, key, artifact);
    if archive.Refused? then None
    else
      var members := codec.untar(archive.data);
      if members == None then None
      else
        var b := UnpackBundle(members.value);
        if b.Some? && VerifyLocalBackupBundle(codec, b.value).Some? then b else None
  }

  // Materializing an exported bundle gives back the same name and the same
  // seven files, which verify with the same manifest digest.
  lemma ExportMaterialize(codec: Codec, gcm: SealedFile.Gcm, key: Bytes, nonce: Bytes, b: Bundle)
    requires codec.Valid() && gcm.Valid() && |nonce| == SealedFile.NONCE_BYTES && '/' !in b.name
    ensures VerifyLocalBackupBundle(codec, b).Some? ==>
              Materialized(codec, gcm, key, gcm.Seal(key, nonce, codec.tar(PackBundle(b)))) == Some(b)
  {
    if VerifyLocalBackupBundle(codec, b).Some? {
      hide Materialized;
      MaterializedSealed(codec, gcm, key, nonce, b);
    }
  }

  // ---- From the raw-storage tree to the restored archive ----

  // The raw storage of these sources is the tree, and did not change.
  ghost predicate FromTree(codec: Codec, s: Sources, names: seq<string>, tree: Inventory.Tree) {
    && (forall n :: n in names ==> n in tree && Inventory.Normal(n))
    && Inventory.Scan(codec.inventorySha, names, tree).Some?
    && var entries := Inventory.Scan(codec.inventorySha, names, tree).value;
       && s.before == Inventory.Summarize(codec.inventorySha, entries) == s.after && s.sourceState == s.stateAfter
       && Inventory.Pack(entries, tree, {}).Some?
       && s.rawArchive == codec.rawTar(Inventory.Pack(entries, tree, {}).value)
  }

  // The producer's archive check passes exactly for a tree without hard links.
  lemma TreeArchiveAccepted(codec: Codec, s: Sources, names: seq<string>, tree: Inventory.Tree)
    requires codec.Valid() && FromTree(codec, s, names, tree)
    ensures RawArchiveAccepted(codec, s.rawArchive, s.before) <==> Inventory.NoHardLinks(names, tree, {})
  {
    hide Inventory.Accepts, Inventory.Scan, Inventory.Pack, Inventory.Summarize, Inventory.Normal;
    Inventory.UnchangedSourceVerifies(codec.inventorySha, names, tree);
  }

  // A bundle published from an unchanged tree is exported and materialized to
  // itself if its metadata fits and to nothing otherwise; what comes back
  // verifies with the same manifest digest, and its raw archive reads back
  // exactly the entries of the tree.
  lemma TreeToRestore(codec: Codec, gcm: SealedFile.Gcm, key: Bytes, nonce: Bytes, s: Sources, names: seq<string>,
                      tree: Inventory.Tree, b: Bundle, createdAt: string, verifiedAt: string)
    requires codec.Valid() && gcm.Valid() && |nonce| == SealedFile.NONCE_BYTES && s.sourceState in {"present", "missing"}
    requires FromTree(codec, s, names, tree) && Published(codec, s, b, createdAt, verifiedAt)
    ensures Materialized(codec, gcm, key, gcm.Seal(key, nonce, codec.tar(PackBundle(b)))) == if MetadataFits(b) then Some(b) else None
    ensures MetadataFits(b) ==> VerifyLocalBackupBundle(codec, b) == Some(codec.sha(b.files[Content(Manifest)]))
    ensures var members := codec.rawMembers(b.files[Content(Raw)]);
            && members.Some?
            && Inventory.EntriesOf(codec.inventorySha, members.value) == Inventory.Scan(codec.inventorySha, names, tree)
  {
    TreeReadsBack(codec, s, names, tree, b, createdAt, verifiedAt);
    hide FromTree, VerifyLocalBackupBundle, VerifyChecksum, RawArchiveAccepted, Inventory.EntriesOf, Inventory.Scan;
    hide ManifestFields, ReceiptFields, BundleName, Inventory.IsSha256, PackBundle, UnpackBundle;
    SummaryDigest(codec, s, names, tree);
    PublishedAccepted(codec, s, b, createdAt, verifiedAt);
    PublishedName(codec, s, b, createdAt, verifiedAt);
    hide Published;
    MaterializedSealed(codec, gcm, key, nonce, b);
  }

  lemma PublishedName(codec: Codec, s: Sources, b: Bundle, createdAt: string, verifiedAt: string)
    requires Published(codec, s, b, createdAt, verifiedAt)
    ensures BundleName(b.name) && '/' !in b.name && b.files.Keys == FILE_NAMES
  {
  }

  // Materializing a sealed bundle gives it back exactly if it verifies.
  lemma MaterializedSealed(codec: Codec, gcm: SealedFile.Gcm, key: Bytes, nonce: Bytes, b: Bundle)
    requires codec.Valid() && gcm.Valid() && |nonce| == SealedFile.NONCE_BYTES
    requires b.files.Keys == FILE_NAMES && BundleName(b.name) && '/' !in b.name
    ensures Materialized(codec, gcm, key, gcm.Seal(key, nonce, codec.tar(PackBundle(b))))
            == if VerifyLocalBackupBundle(codec, b).Some? then Some(b) else None
  {
    hide VerifyLocalBackupBundle, BundleName, PackBundle, UnpackBundle;
    SealedFile.OpenSeal(gcm, key, nonce, codec.tar(PackBundle(b)));
    UnpackPack(b);
  }

  lemma TreeReadsBack(codec: Codec, s: Sources, names: seq<string>, tree: Inventory.Tree, b: Bundle, createdAt: string, verifiedAt: string)
    requires codec.Valid() && FromTree(codec, s, names, tree) && Published(codec, s, b, createdAt, verifiedAt)
    ensures var members := codec.rawMembers(b.files[Content(Raw)]);
            && members.Some?
            && Inventory.EntriesOf(codec.inventorySha, members.value) == Inventory.Scan(codec.inventorySha, names, tree)
  {
    hide RawArchiveAccepted, VerifyChecksum, ManifestFields, ReceiptFields, Inventory.EntriesOf, Inventory.Pack;
    TreeArchiveAccepted(codec, s, names, tree);
    SummaryDigest(codec, s, names, tree);
    Inventory.PackReadsBack(codec.inventorySha, names, tree, {});
  }

  lemma SummaryDigest(codec: Codec, s: Sources, names: seq<string>, tree: Inventory.Tree)
    requires codec.Valid() && FromTree(codec, s, names, tree)
    ensures Inventory.IsSha256(s.before.digest)
    ensures codec.rawMembers(s.rawArchive) == Inventory.Pack(Inventory.Scan(codec.inventorySha, names, tree).value, tree, {})
  {
  }

  // Whatever the artifact, what is materialized is a bundle that verifies, and
  // the artifact is a sealing under the same key.
  lemma MaterializedIsVerified(codec: Codec, gcm: SealedFile.Gcm, key: Bytes, artifact: Bytes, b: Bundle)
    requires gcm.Valid()
    ensures Materialized(codec, gcm, key, artifact) == Some(b) ==>
              && VerifyLocalBackupBundle(codec, b).Some?
              && exists nonce, archive ::
                   && |nonce| == SealedFile.NONCE_BYTES && artifact == gcm.Seal(key, nonce, archive)
                   && codec.untar(archive).Some? && UnpackBundle(codec.untar(archive).value) == Some(b)
  {
    if Materialized(codec, gcm, key, artifact) == Some(b) {
      var archive := SealedFile.Open(gcm, key, artifact).data;
      SealedFile.OpensExactlySealings(gcm, key, artifact, archive);
    }
  }
}
