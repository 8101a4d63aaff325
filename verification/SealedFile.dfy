// The encrypted backup container (scripts/disaster_recovery.py): a magic, a
// nonce, AES-GCM ciphertext and a tag, written and read in chunks.
//
// The cipher is a keystream and a tag function (NIST SP 800-38D, sections 7.1
// and 7.2), both arbitrary; files are byte sequences in a map from path to content.
module SealedFile {

  type Bytes = seq<bv8>

  const MAGIC: Bytes := [70, 79, 83, 66, 65, 75, 48, 49] // FOSBAK01
  const NONCE_BYTES := 12
  const TAG_BYTES := 16
  const HEADER := |MAGIC| + NONCE_BYTES

  // AES-GCM: byte i of the keystream, and the tag over the ciphertext with the
  // magic as additional authenticated data.
  datatype Gcm = Gcm(keystream: (Bytes, Bytes, nat) -> bv8, mac: (Bytes, Bytes, Bytes, Bytes) -> Bytes) {
    ghost predicate Valid() { forall k, n, aad, c :: |mac(k, n, aad, c)| == TAG_BYTES }

    // Bytes at offset `from` of the stream, combined with the keystream.
    function Crypt(key: Bytes, nonce: Bytes, from: nat, data: Bytes): (r: Bytes)
      ensures |r| == |data|
    {
      seq(|data|, i requires 0 <= i < |data| => data[i] ^ keystream(key, nonce, from + i))
    }

    lemma CryptConcat(key: Bytes, nonce: Bytes, from: nat, a: Bytes, b: Bytes)
      ensures Crypt(key, nonce, from, a + b) == Crypt(key, nonce, from, a) + Crypt(key, nonce, from + |a|, b)
    {
    }

    lemma CryptTwice(key: Bytes, nonce: Bytes, from: nat, data: Bytes)
      ensures Crypt(key, nonce, from, Crypt(key, nonce, from, data)) == data
    {
      var once := Crypt(key, nonce, from, data);
      forall i | 0 <= i < |data| ensures Crypt(key, nonce, from, once)[i] == data[i] {
        assert Crypt(key, nonce, from, once)[i] == (data[i] ^ keystream(key, nonce, from + i)) ^ keystream(key, nonce, from + i);
      }
    }

    // The whole container in one shot.
    function Seal(key: Bytes, nonce: Bytes, plain: Bytes): Bytes {
      var c := Crypt(key, nonce, 0, plain);
      MAGIC + nonce + c + mac(key, nonce, MAGIC, c)
    }
  }

  datatype Failure = Truncated | BadHeader | BadTag | Unreadable
  datatype Opened = Plain(data: Bytes) | Refused(why: Failure)

  // What a container holds, apart from where it is stored.
  function Open(gcm: Gcm, key: Bytes, file: Bytes): Opened {
    if |file| <= HEADER + TAG_BYTES then Refused(Truncated)
    else if file[..|MAGIC|] != MAGIC then Refused(BadHeader)
    else
      var nonce, c := file[|MAGIC|..HEADER], file[HEADER..|file| - TAG_BYTES];
      if gcm.mac(key, nonce, MAGIC, c) != file[|file| - TAG_BYTES..] then Refused(BadTag)
      else Plain(gcm.Crypt(key, nonce, 0, c))
  }

  lemma SealParts(gcm: Gcm, key: Bytes, nonce: Bytes, plain: Bytes)
    requires gcm.Valid() && |nonce| == NONCE_BYTES
    ensures var f, c := gcm.Seal(key, nonce, plain), gcm.Crypt(key, nonce, 0, plain);
            && |f| == HEADER + |plain| + TAG_BYTES
            && f[..|MAGIC|] == MAGIC && f[|MAGIC|..HEADER] == nonce
            && f[HEADER..|f| - TAG_BYTES] == c && f[|f| - TAG_BYTES..] == gcm.mac(key, nonce, MAGIC, c)
  {
    var c := gcm.Crypt(key, nonce, 0, plain);
    var tag := gcm.mac(key, nonce, MAGIC, c);
    var f := MAGIC + nonce + c + tag;
    assert f == MAGIC + (nonce + c + tag);
    assert f == (MAGIC + nonce) + (c + tag);
    assert f == (MAGIC + nonce + c) + tag;
  }

  // Byte by byte: the magic FOSBAK01, the nonce, each plaintext byte combined
  // with the keystream byte at its offset, and the tag over all of the latter.
  lemma SealBytes(gcm: Gcm, key: Bytes, nonce: Bytes, plain: Bytes)
    requires gcm.Valid() && |nonce| == 12
    ensures var f := gcm.Seal(key, nonce, plain);
            && |f| == 8 + 12 + |plain| + 16
            && f[..8] == [70, 79, 83, 66, 65, 75, 48, 49] && f[8..20] == nonce
            && (forall i :: 0 <= i < |plain| ==> f[20 + i] == plain[i] ^ gcm.keystream(key, nonce, i))
            && f[20 + |plain|..] == gcm.mac(key, nonce, [70, 79, 83, 66, 65, 75, 48, 49], f[20..20 + |plain|])
  {
    SealParts(gcm, key, nonce, plain);
    var f, c := gcm.Seal(key, nonce, plain), gcm.Crypt(key, nonce, 0, plain);
    assert f[20..|f| - 16] == c;
    forall i | 0 <= i < |plain| ensures f[20 + i] == plain[i] ^ gcm.keystream(key, nonce, i) {
      assert f[20 + i] == c[i];
    }
  }

  // Opening gives back exactly what was sealed; only the empty plaintext is refused.
  lemma OpenSeal(gcm: Gcm, key: Bytes, nonce: Bytes, plain: Bytes)
    requires gcm.Valid() && |nonce| == NONCE_BYTES
    ensures Open(gcm, key, gcm.Seal(key, nonce, plain)) == if plain == [] then Refused(Truncated) else Plain(plain)
  {
    SealParts(gcm, key, nonce, plain);
    gcm.CryptTwice(key, nonce, 0, plain);
  }

  // The files that open to p are exactly the sealings of p, for nonempty p.
  lemma OpensExactlySealings(gcm: Gcm, key: Bytes, file: Bytes, plain: Bytes)
    requires gcm.Valid()
    ensures Open(gcm, key, file) == Plain(plain)
            <==> plain != [] && exists nonce :: |nonce| == NONCE_BYTES && file == gcm.Seal(key, nonce, plain)
  {
    if Open(gcm, key, file) == Plain(plain) {
      var nonce, c := file[|MAGIC|..HEADER], file[HEADER..|file| - TAG_BYTES];
      gcm.CryptTwice(key, nonce, 0, c);
      assert file == file[..|MAGIC|] + nonce + c + file[|file| - TAG_BYTES..];
      assert file == gcm.Seal(key, nonce, plain);
    }
    forall nonce | plain != [] && |nonce| == NONCE_BYTES && file == gcm.Seal(key, nonce, plain)
      ensures Open(gcm, key, file) == Plain(plain)
    {
      OpenSeal(gcm, key, nonce, plain);
    }
  }

  // The library's streaming encryptor or decryptor.
  class Stream {
    const gcm: Gcm
    const key: Bytes
    const nonce: Bytes
    var input: Bytes
    ghost var output: Bytes

    ghost predicate Valid() reads this { output == gcm.Crypt(key, nonce, 0, input) }

    constructor (gcm: Gcm, key: Bytes, nonce: Bytes)
      ensures Valid() && input == [] && this.gcm == gcm && this.key == key && this.nonce == nonce
    {
      this.gcm, this.key, this.nonce := gcm, key, nonce;
      input, output := [], [];
    }

    method Update(chunk: Bytes) returns (r: Bytes)
      requires Valid()
      modifies this
      ensures Valid() && input == old(input) + chunk && output == old(output) + r
    {
      r := gcm.Crypt(key, nonce, |input|, chunk);
      gcm.CryptConcat(key, nonce, 0, input, chunk);
      input, output := input + chunk, output + r;
    }
  }

  // The directory tree the two operations work on.
  class Disk {
    var files: map<string, Bytes>

    constructor (files: map<string, Bytes>)
      ensures this.files == files
    {
      this.files := files;
    }

    // Writes source, sealed under a fresh nonce, to destination by way of a
    // partial file that is then renamed over it. A missing source, or a partial
    // file that is already there, leaves all files alone.
    method EncryptFile(gcm: Gcm, source: string, destination: string, partial: string,
                       key: Bytes, nonce: Bytes, chunkBytes: nat) returns (ok: bool)
      requires partial != destination
      requires |nonce| == NONCE_BYTES && chunkBytes > 0
      modifies this
      ensures ok <==> source in old(files) && partial !in old(files)
      ensures files == if ok then old(files)[destination := gcm.Seal(key, nonce, old(files)[source])] else old(files)
    {
      if partial in files {
        return false;
      }
      var written := MAGIC + nonce;
      if source !in files {
        files := files[partial := []];
        files := files - {partial};
        return false;
      }
      var encryptor := new Stream(gcm, key, nonce);
      var plain := files[source];
      var position := 0;
      while position < |plain|
        invariant position <= |plain|
        invariant encryptor.Valid() && encryptor.input == plain[..position]
        invariant encryptor.gcm == gcm && encryptor.key == key && encryptor.nonce == nonce
        invariant written == MAGIC + nonce + encryptor.output
        invariant files == old(files)
      {
        var next := if position + chunkBytes <= |plain| then position + chunkBytes else |plain|;
        var chunk := encryptor.Update(plain[position..next]);
        assert plain[..next] == plain[..position] + plain[position..next];
        written := written + chunk;
        position := next;
      }
      assert plain[..position] == plain;
      written := written + gcm.mac(key, nonce, MAGIC, gcm.Crypt(key, nonce, 0, encryptor.input));
      files := files[partial := written];
      files := (files - {partial})[destination := written];
      ok := true;
    }

    // Reads a container into a new file. The tag is checked only after every
    // chunk has been written; what was written is then removed again.
    method DecryptFile(gcm: Gcm, source: string, destination: string, key: Bytes, chunkBytes: nat)
      returns (r: Opened)
      requires chunkBytes > 0
      modifies this
      ensures (r, files) == DecryptOutcome(gcm, old(files), source, destination, key)
    {
      if source !in files {
        files := files - {destination};
        return Refused(Unreadable);
      }
      var file := files[source];
      var size := |file|;
      if size <= HEADER + TAG_BYTES {
        return Refused(Truncated);
      }
      var magic, nonce, tag := file[..|MAGIC|], file[|MAGIC|..HEADER], file[size - TAG_BYTES..];
      var ciphertextBytes := size - HEADER - TAG_BYTES;
      var position := HEADER;
      if magic != MAGIC || |nonce| != NONCE_BYTES {
        return Refused(BadHeader);
      }
      var decryptor := new Stream(gcm, key, nonce);
      if destination in files {
        files := files - {destination};
        return Refused(Unreadable);
      }
      var written: Bytes := [];
      var remaining := ciphertextBytes;
      while remaining > 0
        invariant 0 <= remaining && position + remaining == size - TAG_BYTES && HEADER <= position
        invariant decryptor.Valid() && decryptor.input == file[HEADER..position]
        invariant decryptor.gcm == gcm && decryptor.key == key && decryptor.nonce == nonce
        invariant written == decryptor.output
        invariant files == old(files)
      {
        var count := if chunkBytes < remaining then chunkBytes else remaining;
        var chunk := file[position..position + count];
        remaining := remaining - |chunk|;
        var plain := decryptor.Update(chunk);
        assert file[HEADER..position + count] == file[HEADER..position] + chunk;
        written := written + plain;
        position := position + count;
      }
      files := files[destination := written];
      if gcm.mac(key, nonce, MAGIC, decryptor.input) != tag {
        files := files - {destination};
        assert files == old(files);
        return Refused(BadTag);
      }
      return Plain(written);
    }
  }

  // The result of DecryptFile and the files it leaves.
  function DecryptOutcome(gcm: Gcm, files: map<string, Bytes>, source: string, destination: string, key: Bytes)
    : (Opened, map<string, Bytes>)
  {
    if source !in files then (Refused(Unreadable), files - {destination})
    else
      var content := Open(gcm, key, files[source]);
      if content == Refused(Truncated) || content == Refused(BadHeader) then (content, files)
      else if destination in files then (Refused(Unreadable), files - {destination})
      else if content.Refused? then (content, files)
      else (content, files[destination := content.data])
  }

  // Too short to be a container, or not starting with the magic.
  predicate Malformed(file: Bytes) { |file| <= HEADER + TAG_BYTES || file[..|MAGIC|] != MAGIC }

  // A failed decryption never leaves a new file, and it leaves all files alone
  // exactly if the destination was free or the source is a malformed file.
  // Otherwise the file that was at the destination is removed.
  lemma FailedDecrypt(gcm: Gcm, files: map<string, Bytes>, source: string, destination: string, key: Bytes)
    ensures var (r, left) := DecryptOutcome(gcm, files, source, destination, key);
            && (r.Refused? ==> left.Keys <= files.Keys && forall f :: f in left ==> left[f] == files[f])
            && (r.Refused? ==> (left == files <==> destination !in files || (source in files && Malformed(files[source]))))
            && (r.Plain? ==> destination !in files && left == files[destination := r.data])
  {
    var (r, left) := DecryptOutcome(gcm, files, source, destination, key);
    if left == files - {destination} && destination in files {
      assert destination !in left;
    }
  }

  // A decryption succeeds if and only if the destination is free and the source
  // is a sealing under the key of the nonempty bytes that are then written.
  lemma DecryptsExactlySealings(gcm: Gcm, files: map<string, Bytes>, source: string, destination: string, key: Bytes, plain: Bytes)
    requires gcm.Valid()
    ensures DecryptOutcome(gcm, files, source, destination, key).0 == Plain(plain)
            <==> && source in files && destination !in files && plain != []
                 && exists nonce :: |nonce| == NONCE_BYTES && files[source] == gcm.Seal(key, nonce, plain)
  {
    if source in files { OpensExactlySealings(gcm, key, files[source], plain); }
  }

  // For instance with a mistyped source path: the file at the destination is lost.
  lemma MissingSourceRemoves(gcm: Gcm, source: string, destination: string, kept: Bytes, key: Bytes)
    requires source != destination
    ensures DecryptOutcome(gcm, map[destination := kept], source, destination, key) == (Refused(Unreadable), map[])
  {
    assert map[destination := kept] - {destination} == map[];
  }

  // Encrypting and then decrypting to a free path restores the file, for every
  // key, nonce and pair of chunk sizes.
  method RoundTrip(disk: Disk, gcm: Gcm, source: string, artifact: string, restored: string, partial: string,
                   key: Bytes, nonce: Bytes, writeChunk: nat, readChunk: nat) returns (r: Opened)
    requires gcm.Valid() && |nonce| == NONCE_BYTES && writeChunk > 0 && readChunk > 0
    requires source in disk.files && partial !in disk.files && restored !in disk.files
    requires artifact != restored && partial != artifact
    modifies disk
    ensures var plain := old(disk.files)[source];
            if plain == [] then r == Refused(Truncated) && restored !in disk.files
            else r == Plain(plain) && restored in disk.files && disk.files[restored] == plain
  {
    var written := disk.EncryptFile(gcm, source, artifact, partial, key, nonce, writeChunk);
    r := disk.DecryptFile(gcm, artifact, restored, key, readChunk);
    OpenSeal(gcm, key, nonce, old(disk.files)[source]);
  }
}
