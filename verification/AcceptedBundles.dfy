// What the verification of a backup bundle vouches for, told from the bundle's
// files alone (scripts/disaster_recovery.py, lines 406-497 and 880-905).
module AcceptedBundles {
  import opened Options
  import opened Text
  import opened BackupPipeline
  import Inventory

  // The text is the two words, with white space between and perhaps around them.
  ghost predicate TwoWords(text: string, a: string, b: string) {
    exists before, between, behind ::
      && text == before + a + between + b + behind
      && AllSpace(before) && AllSpace(between) && AllSpace(behind) && between != ""
  }

  lemma {:induction false} SkipSpaces(before: string, rest: string)
    requires AllSpace(before)
    ensures Words(before + rest) == Words(rest)
  {
    if before == [] {
      assert before + rest == rest;
    } else {
      assert IsSpace((before + rest)[0]) && (before + rest)[1..] == before[1..] + rest;
      SkipSpaces(before[1..], rest);
    }
  }

  lemma {:induction false} OnlySpaces(s: string)
    ensures Words(s) == [] <==> AllSpace(s)
    decreases |s|
  {
    if s != [] {
      assert AllSpace(s) <==> IsSpace(s[0]) && AllSpace(s[1..]) by {
        if IsSpace(s[0]) && AllSpace(s[1..]) { assert s == [s[0]] + s[1..]; }
      }
      OnlySpaces(s[1..]);
    }
  }

  lemma WordThen(a: string, rest: string)
    requires a != "" && NoSpaces(a) && (rest == [] || IsSpace(rest[0]))
    ensures Words(a + rest) == [a] + Words(rest)
  {
    WordEndAt(a, rest);
    assert (a + rest)[0] == a[0] && !IsSpace(a[0]);
    assert (a + rest)[..|a|] == a && (a + rest)[|a|..] == rest;
  }

  lemma {:induction false} WordEndIs(s: string)
    ensures NoSpaces(s[..WordEnd(s)]) && (WordEnd(s) < |s| ==> IsSpace(s[WordEnd(s)]))
  {
    if s != [] && !IsSpace(s[0]) {
      WordEndIs(s[1..]);
      assert s[..WordEnd(s)] == [s[0]] + s[1..][..WordEnd(s[1..])];
    }
  }

  lemma {:induction false} FirstWord(s: string) returns (before: string, rest: string)
    requires Words(s) != []
    ensures var a := Words(s)[0];
            && s == before + a + rest && AllSpace(before) && a != "" && NoSpaces(a)
            && (rest == [] || IsSpace(rest[0])) && Words(rest) == Words(s)[1..]
    decreases |s|
  {
    if IsSpace(s[0]) {
      var more;
      more, rest := FirstWord(s[1..]);
      before := [s[0]] + more;
      assert s == [s[0]] + s[1..];
    } else {
      before, rest := WordFirst(s);
    }
  }

  lemma WordFirst(s: string) returns (before: string, rest: string)
    requires s != [] && !IsSpace(s[0])
    ensures var a := Words(s)[0];
            && before == "" && s == before + a + rest && a != "" && NoSpaces(a)
            && (rest == [] || IsSpace(rest[0])) && Words(rest) == Words(s)[1..]
  {
    WordEndIs(s);
    var n := WordEnd(s);
    before, rest := "", s[n..];
    assert Words(s) == [s[..n]] + Words(rest);
    hide Words, WordEnd, IsSpace;
    assert s == "" + s[..n] + rest;
  }

  lemma StartsWithWord(b: string, behind: string)
    requires b != "" && NoSpaces(b)
    ensures !IsSpace(("" + (b + behind))[0])
  {
  }

  lemma WordsFound(s: string, a: string, b: string)
    requires Words(s) == [a, b]
    ensures TwoWords(s, a, b)
  {
    var before, rest := FirstWord(s);
    assert Words(s)[1..] == [b];
    var between, behind := FirstWord(rest);
    assert [b][1..] == [];
    OnlySpaces(behind);
    hide Words, IsSpace, AllSpace, NoSpaces;
    assert s == before + a + between + b + behind;
    assert rest == between + (b + behind);
    StartsWithWord(b, behind);
  }

  lemma {:induction false} TrailingSpaces(s: string, back: string)
    requires AllSpace(back)
    ensures Words(s + back) == Words(s)
    decreases |s|
  {
    if s == [] {
      assert s + back == back;
      OnlySpaces(back);
    } else if IsSpace(s[0]) {
      assert (s + back)[1..] == s[1..] + back;
      TrailingSpaces(s[1..], back);
    } else {
      WordEndIs(s);
      var a, rest := s[..WordEnd(s)], s[WordEnd(s)..];
      assert s == a + rest && s + back == a + (rest + back);
      assert a[0] == s[0];
      WordThen(a, rest);
      WordThen(a, rest + back);
      TrailingSpaces(rest, back);
    }
  }

  lemma LastWord(between: string, b: string, behind: string)
    requires AllSpace(between) && AllSpace(behind) && b != "" && NoSpaces(b)
    ensures Words(between + (b + behind)) == [b]
  {
    assert behind != "" ==> IsSpace(behind[0]);
    hide Words, NoSpaces, AllSpace;
    SkipSpaces(between, b + behind);
    WordThen(b, behind);
    OnlySpaces(behind);
    assert [b] + [] == [b];
  }

  lemma WordsOf(before: string, a: string, between: string, b: string, behind: string)
    requires AllSpace(before) && AllSpace(between) && AllSpace(behind) && between != ""
    requires a != "" && b != "" && NoSpaces(a) && NoSpaces(b)
    ensures Words(before + a + between + b + behind) == [a, b]
  {
    hide Words, NoSpaces;
    var tail := between + (b + behind);
    assert IsSpace(between[0]) && tail[0] == between[0];
    hide AllSpace, IsSpace;
    assert before + a + between + b + behind == before + (a + tail);
    SkipSpaces(before, a + tail);
    WordThen(a, tail);
    LastWord(between, b, behind);
    assert [a] + [b] == [a, b];
  }

  // `text.split()` gives the two words exactly if the text is made of them.
  lemma WordsAre(s: string, a: string, b: string)
    requires a != "" && b != "" && NoSpaces(a) && NoSpaces(b)
    ensures TwoWords(s, a, b) <==> Words(s) == [a, b]
  {
    hide Words, NoSpaces;
    if Words(s) == [a, b] { WordsFound(s, a, b); }
    if TwoWords(s, a, b) {
      var before, between, behind :|
        && s == before + a + between + b + behind
        && AllSpace(before) && AllSpace(between) && AllSpace(behind) && between != "";
      hide AllSpace;
      WordsOf(before, a, between, b, behind);
    }
  }

  lemma StripWords(s: string)
    ensures Words(Strip(s)) == Words(s)
  {
    hide Words, Strip, AllSpace;
    var front, back := StripParts(s);
    assert s == front + (Strip(s) + back);
    SkipSpaces(front, Strip(s) + back);
    TrailingSpaces(Strip(s), back);
  }

  // The checksum file of an artifact names it and holds the digest of its file.
  ghost predicate Vouches(codec: Codec, files: Files, a: Artifact)
    requires Content(a) in files && Checksum(a) in files
  {
    var line := codec.text(files[Checksum(a)]);
    line.Some? && TwoWords(line.value, codec.sha(files[Content(a)]),
                           match a case Dump => "database.dump" case Manifest => "manifest.json" case Raw => "raw-storage.tar.gz")
  }

  lemma ArtifactName(a: Artifact)
    ensures a.Name() == match a case Dump => "database.dump" case Manifest => "manifest.json" case Raw => "raw-storage.tar.gz"
    ensures a.Name() != "" && NoSpaces(a.Name())
  {
  }

  lemma ChecksumVouches(codec: Codec, files: Files, a: Artifact)
    requires codec.Valid() && Content(a) in files && Checksum(a) in files
    ensures VerifyChecksum(codec, files, a).Some? <==> Vouches(codec, files, a)
    ensures VerifyChecksum(codec, files, a).Some? ==> VerifyChecksum(codec, files, a) == Some(codec.sha(files[Content(a)]))
  {
    var digest := codec.sha(files[Content(a)]);
    CodecLaws(codec, "", files[Content(a)]);
    ArtifactName(a);
    hide Words, Strip, TwoWords, NoSpaces, Artifact.Name;
    var line := codec.text(files[Checksum(a)]);
    if line.Some? {
      StripWords(line.value);
      WordsAre(line.value, digest, a.Name());
      var parts := Words(Strip(line.value));
      if |parts| == 2 { assert parts == [parts[0], parts[1]]; }
    }
  }

  // A text field that holds the value, perhaps with white space around it.
  ghost predicate Holds(fields: map<string, Json>, key: string, value: string) {
    && key in fields && fields[key].Str?
    && exists before, behind :: fields[key].text == before + value + behind && AllSpace(before) && AllSpace(behind)
  }

  predicate Flag(fields: map<string, Json>, key: string) { key in fields && fields[key] == Bool(true) }

  predicate Number(fields: map<string, Json>, key: string, n: nat) { key in fields && fields[key] == Int(n) }

  lemma HoldsTrimmed(fields: map<string, Json>, key: string, value: string)
    requires Trimmed(value) && value != ""
    ensures Holds(fields, key, value) <==> RequiredText(fields, key) == Some(value)
  {
    if key in fields && fields[key].Str? {
      var text := fields[key].text;
      var before, behind := StripParts(text);
      if Holds(fields, key, value) {
        var front, back :| text == front + value + back && AllSpace(front) && AllSpace(back);
        StripAround(front, value, back);
      }
    }
  }

  lemma {:induction false} LStripPast(before: string, rest: string)
    requires AllSpace(before) && rest != [] && !IsSpace(rest[0])
    ensures LStrip(before + rest) == rest
  {
    if before == [] {
      assert before + rest == rest;
    } else {
      assert (before + rest)[1..] == before[1..] + rest;
      LStripPast(before[1..], rest);
    }
  }

  lemma {:induction false} RStripPast(s: string, behind: string)
    requires AllSpace(behind) && s != [] && !IsSpace(s[|s| - 1])
    ensures RStrip(s + behind) == s
  {
    if behind == [] {
      assert s + behind == s;
    } else {
      var n := |behind| - 1;
      assert (s + behind)[..|s + behind| - 1] == s + behind[..n];
      RStripPast(s, behind[..n]);
    }
  }

  lemma StripAround(before: string, value: string, behind: string)
    requires AllSpace(before) && AllSpace(behind) && Trimmed(value) && value != ""
    ensures Strip(before + value + behind) == value
  {
    assert before + value + behind == before + (value + behind);
    LStripPast(before, value + behind);
    RStripPast(value, behind);
  }

  // An artifact as the manifest describes it.
  ghost predicate Described(codec: Codec, fields: map<string, Json>, name: string, file: Bytes) {
    && "artifact" in fields && fields["artifact"] == Str(name)
    && Holds(fields, "sha256", codec.sha(file)) && Number(fields, "bytes", |file|)
  }

  lemma ShaTrimmed(codec: Codec, file: Bytes)
    requires codec.Valid()
    ensures Trimmed(codec.sha(file)) && codec.sha(file) != "" && Inventory.IsSha256(codec.sha(file))
  {
    assert Inventory.IsSha256(codec.sha(file));
  }

  lemma ShaField(codec: Codec, fields: map<string, Json>, key: string, file: Bytes)
    requires codec.Valid()
    ensures RequiredSha256(fields, key) == Some(codec.sha(file)) <==> Holds(fields, key, codec.sha(file))
  {
    ShaTrimmed(codec, file);
    hide Trimmed, Inventory.IsSha256, Holds;
    HoldsTrimmed(fields, key, codec.sha(file));
  }

  lemma ManifestDescribes(codec: Codec, files: Files, metadata: map<string, Json>, a: Artifact)
    requires codec.Valid() && Content(a) in files && Checksum(a) in files
    ensures ManifestArtifact(codec, files, metadata, a)
            <==> Vouches(codec, files, a) && Described(codec, metadata, a.Name(), files[Content(a)])
  {
    hide Vouches, VerifyChecksum, Holds, RequiredSha256, Artifact.Name;
    ChecksumVouches(codec, files, a);
    ShaField(codec, metadata, "sha256", files[Content(a)]);
  }

  // The receipt of a bundle whose manifest has the digest.
  ghost predicate GoodReceipt(fields: map<string, Json>, digest: string) {
    && Number(fields, "bundle_format_version", 2)
    && "status" in fields && fields["status"] == Str("verified")
    && "manifest" in fields && fields["manifest"] == Str("manifest.json")
    && Flag(fields, "database_restore_verified") && Flag(fields, "credential_decryptability_verified")
    && Flag(fields, "backup_credential_decryptability_verified") && Flag(fields, "temporary_database_dropped")
    && Flag(fields, "raw_storage_archive_verified") && Flag(fields, "checksums_verified")
    && Holds(fields, "manifest_sha256", digest)
  }

  lemma ReceiptIsGood(codec: Codec, fields: map<string, Json>, file: Bytes)
    requires codec.Valid()
    ensures GoodReceipt(fields, codec.sha(file))
            <==> VerifiedReceipt(fields) && RequiredSha256(fields, "manifest_sha256") == Some(codec.sha(file))
  {
    hide Holds, RequiredSha256;
    ShaField(codec, fields, "manifest_sha256", file);
  }

  // The raw-storage section claims the figures of the archive's own entries.
  ghost predicate ArchiveAsClaimed(codec: Codec, fields: map<string, Json>, archive: Bytes) {
    && "source_state" in fields && fields["source_state"].Str? && !AllSpace(fields["source_state"].text)
    && var members := codec.rawMembers(archive);
       && members.Some?
       && var entries := Inventory.EntriesOf(codec.inventorySha, members.value);
          && entries.Some?
          && Number(fields, "file_count", Inventory.FileCount(entries.value))
          && Number(fields, "directory_count", Inventory.DirectoryCount(entries.value))
          && Number(fields, "total_bytes", Inventory.TotalBytes(entries.value))
          && Holds(fields, "inventory_sha256", codec.inventorySha.ofText(Inventory.InventoryText(entries.value)))
  }

  lemma BlankText(fields: map<string, Json>, key: string)
    ensures RequiredText(fields, key).Some? <==> key in fields && fields[key].Str? && !AllSpace(fields[key].text)
  {
    if key in fields && fields[key].Str? {
      var before, behind := StripParts(fields[key].text);
      var core := Strip(fields[key].text);
      if core != "" {
        StripTrims(fields[key].text);
        assert fields[key].text[|before|] == core[0] && !IsSpace(core[0]);
      } else {
        assert fields[key].text == before + behind;
      }
    }
  }

  lemma InventoryField(codec: Codec, fields: map<string, Json>, text: string)
    requires codec.Valid()
    ensures var digest := codec.inventorySha.ofText(text);
            && Inventory.IsSha256(digest)
            && (RequiredSha256(fields, "inventory_sha256") == Some(digest) <==> Holds(fields, "inventory_sha256", digest))
  {
    var digest := codec.inventorySha.ofText(text);
    assert Inventory.IsSha256(digest);
    TrimmedHash(digest);
    assert Trimmed(digest) && digest != "";
    hide Holds, Trimmed;
    HoldsTrimmed(fields, "inventory_sha256", digest);
  }

  lemma ClaimsAre(codec: Codec, fields: map<string, Json>, archive: Bytes)
    requires codec.Valid()
    ensures ArchiveAsClaimed(codec, fields, archive)
            <==> ClaimedSummary(fields).Some? && RawArchiveAccepted(codec, archive, ClaimedSummary(fields).value)
  {
    BlankText(fields, "source_state");
    var members := codec.rawMembers(archive);
    if members.Some? && Inventory.EntriesOf(codec.inventorySha, members.value).Some? {
      InventoryField(codec, fields, Inventory.InventoryText(Inventory.EntriesOf(codec.inventorySha, members.value).value));
    }
    hide Codec.Valid, Holds, RequiredText, RequiredSha256, AllSpace, Inventory.EntriesOf, Inventory.InventoryText;
    hide Inventory.FileCount, Inventory.DirectoryCount, Inventory.TotalBytes, Inventory.IsSha256;
  }

  // The receipt file is small enough, and a good receipt.
  ghost predicate ReceiptFile(codec: Codec, file: Bytes, digest: string) {
    && |file| <= 1_048_576
    && var receipt := codec.parse(file);
       receipt.Some? && receipt.value.Obj? && GoodReceipt(receipt.value.fields, digest)
  }

  // The manifest file is small enough, and describes the dump and the raw archive.
  ghost predicate ManifestFile(codec: Codec, file: Bytes, dump: Bytes, archive: Bytes) {
    && |file| <= 1_048_576
    && var manifest := codec.parse(file);
       && manifest.Some? && manifest.value.Obj?
       && var m := manifest.value.fields;
          && Number(m, "bundle_format_version", 2)
          && "database" in m && m["database"].Obj? && "raw_storage" in m && m["raw_storage"].Obj?
          && Described(codec, m["database"].fields, "database.dump", dump)
          && Described(codec, m["raw_storage"].fields, "raw-storage.tar.gz", archive)
          && ArchiveAsClaimed(codec, m["raw_storage"].fields, archive)
  }

  predicate WellNamed(name: string) { "founderos-" <= name && !EndsWith(name, ".partial") }

  // Everything an accepted bundle contains, in terms of its files.
  ghost predicate Intact(codec: Codec, b: Bundle, digest: string) {
    && WellNamed(b.name) && b.files.Keys == FILE_NAMES
    && Vouches(codec, b.files, Dump) && Vouches(codec, b.files, Manifest) && Vouches(codec, b.files, Raw)
    && digest == codec.sha(b.files[Content(Manifest)])
    && ReceiptFile(codec, b.files[Receipt], digest)
    && ManifestFile(codec, b.files[Content(Manifest)], b.files[Content(Dump)], b.files[Content(Raw)])
  }

  // The tests of the receipt, and of the manifest, as the verification makes them.
  predicate ReceiptPasses(codec: Codec, files: Files)
    requires files.Keys == FILE_NAMES
  {
    var receipt := ReadJson(codec, files[Receipt]);
    && receipt.Some? && VerifiedReceipt(receipt.value)
    && VerifyChecksum(codec, files, Manifest).Some?
    && RequiredSha256(receipt.value, "manifest_sha256") == VerifyChecksum(codec, files, Manifest)
  }

  predicate ManifestPasses(codec: Codec, files: Files)
    requires files.Keys == FILE_NAMES
  {
    var manifest := ReadJson(codec, files[Content(Manifest)]);
    && manifest.Some? && Is(manifest.value, "bundle_format_version", Int(FORMAT_VERSION))
    && var database, raw := RequiredMapping(manifest.value, "database"), RequiredMapping(manifest.value, "raw_storage");
       && database.Some? && raw.Some?
       && ManifestArtifact(codec, files, database.value, Dump) && ManifestArtifact(codec, files, raw.value, Raw)
       && ClaimedSummary(raw.value).Some?
       && RawArchiveAccepted(codec, files[Content(Raw)], ClaimedSummary(raw.value).value)
  }

  lemma AcceptedPasses(codec: Codec, b: Bundle)
    ensures VerifyLocalBackupBundle(codec, b)
            == if BundleName(b.name) && b.files.Keys == FILE_NAMES && ReceiptPasses(codec, b.files) && ManifestPasses(codec, b.files)
               then VerifyChecksum(codec, b.files, Manifest) else None
  {
    hide BundleName, VerifyChecksum, VerifiedReceipt, RequiredSha256, ManifestArtifact, ClaimedSummary, RawArchiveAccepted;
    hide ReadJson, Is, RequiredMapping;
  }

  lemma ReceiptPassesIff(codec: Codec, files: Files)
    requires codec.Valid() && files.Keys == FILE_NAMES
    ensures ReceiptPasses(codec, files)
            <==> Vouches(codec, files, Manifest) && ReceiptFile(codec, files[Receipt], codec.sha(files[Content(Manifest)]))
  {
    ChecksumVouches(codec, files, Manifest);
    var receipt := codec.parse(files[Receipt]);
    if receipt.Some? && receipt.value.Obj? { ReceiptIsGood(codec, receipt.value.fields, files[Content(Manifest)]); }
    hide Codec.Valid, Vouches, VerifyChecksum, GoodReceipt, VerifiedReceipt, RequiredSha256;
  }

  lemma ManifestPassesIff(codec: Codec, files: Files)
    requires codec.Valid() && files.Keys == FILE_NAMES
    ensures ManifestPasses(codec, files)
            <==> && Vouches(codec, files, Dump) && Vouches(codec, files, Raw)
                 && ManifestFile(codec, files[Content(Manifest)], files[Content(Dump)], files[Content(Raw)])
  {
    hide Codec.Valid, Vouches, VerifyChecksum, ManifestArtifact, Described, ArchiveAsClaimed, ClaimedSummary, RawArchiveAccepted;
    var manifest := codec.parse(files[Content(Manifest)]);
    if manifest.Some? && manifest.value.Obj? {
      var m := manifest.value.fields;
      if "database" in m && m["database"].Obj? { ManifestDescribes(codec, files, m["database"].fields, Dump); }
      if "raw_storage" in m && m["raw_storage"].Obj? {
        ManifestDescribes(codec, files, m["raw_storage"].fields, Raw);
        ClaimsAre(codec, m["raw_storage"].fields, files[Content(Raw)]);
      }
    }
  }

  // A bundle is accepted, with this digest, if and only if it is intact.
  lemma AcceptedIsIntact(codec: Codec, b: Bundle, digest: string)
    requires codec.Valid()
    ensures VerifyLocalBackupBundle(codec, b) == Some(digest) <==> Intact(codec, b, digest)
  {
    hide VerifyLocalBackupBundle, ReceiptPasses, ManifestPasses, VerifyChecksum, Vouches, ReceiptFile, ManifestFile, EndsWith;
    AcceptedPasses(codec, b);
    if b.files.Keys == FILE_NAMES {
      ReceiptPassesIff(codec, b.files);
      ManifestPassesIff(codec, b.files);
      ChecksumVouches(codec, b.files, Manifest);
    }
  }

  lemma IntactNames(codec: Codec, b: Bundle, digest: string)
    requires Intact(codec, b, digest)
    ensures b.files.Keys == FILE_NAMES
  {
  }

  lemma IntactVouches(codec: Codec, b: Bundle, digest: string, a: Artifact)
    requires Intact(codec, b, digest) && Content(a) in b.files && Checksum(a) in b.files
    ensures Vouches(codec, b.files, a) && Content(Manifest) in b.files && digest == codec.sha(b.files[Content(Manifest)])
  {
    hide Vouches, ReceiptFile, ManifestFile, WellNamed;
    IntactNames(codec, b, digest);
    NamesHeld(b.files);
  }

  lemma NamesHeld(files: Files)
    requires files.Keys == FILE_NAMES
    ensures forall a: Artifact :: Content(a) in files && Checksum(a) in files
  {
    forall a: Artifact ensures Content(a) in files && Checksum(a) in files {
      match a
      case Dump =>
      case Manifest =>
      case Raw =>
    }
  }

  // One checksum text vouches for one digest only.
  lemma OneDigest(text: string, a: string, c: string, name: string)
    requires TwoWords(text, a, name) && TwoWords(text, c, name)
    requires a != "" && c != "" && name != "" && NoSpaces(a) && NoSpaces(c) && NoSpaces(name)
    ensures a == c
  {
    hide TwoWords, NoSpaces, Words;
    WordsAre(text, a, name);
    WordsAre(text, c, name);
    assert [a, name][0] == [c, name][0];
  }

  lemma TwoVouches(codec: Codec, files: Files, others: Files, a: Artifact)
    requires codec.Valid() && Content(a) in files && Checksum(a) in files && Content(a) in others && Checksum(a) in others
    requires Vouches(codec, files, a) && Vouches(codec, others, a) && files[Checksum(a)] == others[Checksum(a)]
    ensures codec.sha(files[Content(a)]) == codec.sha(others[Content(a)])
  {
    CodecLaws(codec, "", files[Content(a)]);
    CodecLaws(codec, "", others[Content(a)]);
    ArtifactName(a);
    hide Codec.Valid, TwoWords, NoSpaces, Artifact.Name;
    OneDigest(codec.text(files[Checksum(a)]).value, codec.sha(files[Content(a)]), codec.sha(others[Content(a)]), a.Name());
  }

  // Replacing the dump, the manifest or the raw archive of an accepted bundle
  // is refused, unless the two files have the same digest.
  lemma TamperingRefused(codec: Codec, b: Bundle, a: Artifact, other: Bytes)
    requires codec.Valid() && b.files.Keys == FILE_NAMES && codec.sha(other) != codec.sha(b.files[Content(a)])
    ensures VerifyLocalBackupBundle(codec, b).Some? ==>
              VerifyLocalBackupBundle(codec, b.(files := b.files[Content(a) := other])) == None
  {
    hide VerifyLocalBackupBundle, Intact, Codec.Valid, Vouches;
    var c := b.(files := b.files[Content(a) := other]);
    var x, y := VerifyLocalBackupBundle(codec, b), VerifyLocalBackupBundle(codec, c);
    if x.Some? && y.Some? {
      AcceptedIsIntact(codec, b, x.value);
      AcceptedIsIntact(codec, c, y.value);
      NamesHeld(b.files);
      IntactVouches(codec, b, x.value, a);
      IntactVouches(codec, c, y.value, a);
      TwoVouches(codec, b.files, c.files, a);
    }
  }

  // If an accepted bundle with one file replaced is still accepted, the file is
  // the receipt or a checksum file, and the digest is the same.
  lemma OneFileChanged(codec: Codec, b: Bundle, n: FileName, other: Bytes)
    requires codec.Valid() && b.files.Keys == FILE_NAMES && n in FILE_NAMES
    requires n.Content? ==> codec.sha(other) != codec.sha(b.files[n])
    ensures var x, y := VerifyLocalBackupBundle(codec, b), VerifyLocalBackupBundle(codec, b.(files := b.files[n := other]));
            x.Some? && y.Some? ==> (n.Checksum? || n == Receipt) && x == y
  {
    hide VerifyLocalBackupBundle, Intact, Codec.Valid, Vouches;
    var c := b.(files := b.files[n := other]);
    var x, y := VerifyLocalBackupBundle(codec, b), VerifyLocalBackupBundle(codec, c);
    if x.Some? && y.Some? {
      if n.Content? { TamperingRefused(codec, b, n.artifact, other); }
      AcceptedIsIntact(codec, b, x.value);
      AcceptedIsIntact(codec, c, y.value);
      IntactNames(codec, c, y.value);
      NamesHeld(b.files);
      IntactVouches(codec, b, x.value, Manifest);
      IntactVouches(codec, c, y.value, Manifest);
    }
  }
}
