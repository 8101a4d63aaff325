// The raw-storage inventory and its archive (scripts/local_runtime.py).
//
// Names are text without NUL; the digest is taken over the UTF-8 encoding of
// the inventory text, which is one-to-one, so the text itself stands for it.
module Inventory {
  import opened Options
  import opened Ordering
  import opened Text

  const NUL := '\0'

  datatype Kind = Directory | File {
    function Name(): string { if Directory? then "directory" else "file" }
  }

  function Field(value: string, sep: char, rest: string): string { value + [sep] + rest }

  datatype Entry = Entry(name: string, kind: Kind, size: nat, sha256: Option<string>) {
    function HashText(): string { if sha256.Some? && sha256.value != "" then sha256.value else "-" }

    // This entry's line, followed by the text of the entries after it.
    function LineThen(rest: string): string {
      Field(name, NUL, Field(kind.Name(), NUL, Field(Decimal(size), NUL, Field(HashText(), '\n', rest))))
    }

    // What a scan records: a NUL-free name, and a digest exactly for files.
    ghost predicate Valid() {
      && Lacks(name, NUL)
      && (sha256.Some? ==> IsSha256(sha256.value))
    }
  }

  predicate IsSha256(s: string) {
    |s| == 64 && forall i :: 0 <= i < |s| ==> '0' <= s[i] <= '9' || 'a' <= s[i] <= 'f'
  }

  // Python compares the tuples (archive_name, kind).
  predicate KeyLeq(a: Entry, b: Entry) {
    if a.name == b.name then a.kind == Directory || b.kind == File else StringLeq(a.name, b.name)
  }

  lemma KeyOrder()
    ensures Preorder(KeyLeq)
  {
    StringOrder();
  }

  ghost predicate DistinctNames(entries: seq<Entry>) {
    forall a, b :: a in entries && b in entries && a.name == b.name && a.kind == b.kind ==> a == b
  }

  function Lines(entries: seq<Entry>): string {
    if entries == [] then "" else entries[0].LineThen(Lines(entries[1..]))
  }

  function InventoryText(entries: seq<Entry>): string { Lines(Sort(KeyLeq, entries)) }

  // The line of an entry, character by character, and what stands for the
  // digest of an entry without one.
  lemma LineIs(e: Entry, rest: string)
    ensures e.LineThen(rest)
            == e.name + "\0" + (match e.kind case Directory => "directory" case File => "file") + "\0" + Decimal(e.size) + "\0"
               + (match e.sha256 case None => "-" case Some(hash) => if hash == "" then "-" else hash) + "\n" + rest
  {
    hide Decimal;
    var kind, size, hash := e.kind.Name(), Decimal(e.size), e.HashText();
    assert e.name + ['\0'] + (kind + ['\0'] + (size + ['\0'] + (hash + ['\n'] + rest)))
           == e.name + ['\0'] + kind + ['\0'] + size + ['\0'] + hash + ['\n'] + rest;
    assert ['\0'] == "\0" && ['\n'] == "\n";
  }

  // The bytes up to a separator determine what stands before and after it.
  lemma FieldEnds(a: string, x: string, b: string, y: string, sep: char)
    requires Lacks(a, sep) && Lacks(b, sep) && Field(a, sep, x) == Field(b, sep, y)
    ensures a == b && x == y
  {
    var t := Field(a, sep, x);
    assert t[|a|] == sep && t[|b|] == sep;
    assert forall i :: 0 <= i < |a| ==> t[i] == a[i];
    assert forall i :: 0 <= i < |b| ==> t[i] == b[i];
    assert a == t[..|a|] && b == t[..|b|];
    assert x == t[|a| + 1..] && y == t[|b| + 1..];
  }

  lemma LineEnds(e: Entry, rest: string, f: Entry, more: string)
    requires e.Valid() && f.Valid() && e.LineThen(rest) == f.LineThen(more)
    ensures e == f && rest == more
  {
    hide Field, Decimal;
    var e3, f3 := Field(e.HashText(), '\n', rest), Field(f.HashText(), '\n', more);
    var e2, f2 := Field(Decimal(e.size), NUL, e3), Field(Decimal(f.size), NUL, f3);
    var e1, f1 := Field(e.kind.Name(), NUL, e2), Field(f.kind.Name(), NUL, f2);
    FieldEnds(e.name, e1, f.name, f1, NUL);
    FieldEnds(e.kind.Name(), e2, f.kind.Name(), f2, NUL);
    FieldEnds(Decimal(e.size), e3, Decimal(f.size), f3, NUL);
    DecimalInjective(e.size, f.size);
    FieldEnds(e.HashText(), rest, f.HashText(), more, '\n');
    assert |"file"| != |"directory"|;
  }

  lemma {:induction false} LinesInjective(a: seq<Entry>, b: seq<Entry>)
    requires forall e :: e in a || e in b ==> e.Valid()
    requires Lines(a) == Lines(b)
    ensures a == b
  {
    if a != [] && b != [] {
      LineEnds(a[0], Lines(a[1..]), b[0], Lines(b[1..]));
      LinesInjective(a[1..], b[1..]);
      assert a == [a[0]] + a[1..] && b == [b[0]] + b[1..];
    }
  }

  // Equal inventory texts come from the same entries, even if a name is repeated.
  lemma TextDeterminesEntries(a: seq<Entry>, b: seq<Entry>)
    requires forall e :: e in a || e in b ==> e.Valid()
    requires InventoryText(a) == InventoryText(b)
    ensures multiset(a) == multiset(b)
  {
    KeyOrder();
    SortCorrect(KeyLeq, a);
    SortCorrect(KeyLeq, b);
    LinesInjective(Sort(KeyLeq, a), Sort(KeyLeq, b));
  }

  lemma KeyTies(a: Entry, b: Entry)
    requires KeyLeq(a, b) && KeyLeq(b, a)
    ensures a.name == b.name && a.kind == b.kind
  {
    StringOrder();
  }

  lemma EntriesDetermineText(a: seq<Entry>, b: seq<Entry>)
    requires DistinctNames(a) && multiset(a) == multiset(b)
    ensures InventoryText(a) == InventoryText(b)
  {
    KeyOrder();
    SortCorrect(KeyLeq, a);
    SortCorrect(KeyLeq, b);
    forall x, y | x in Sort(KeyLeq, a) && y in Sort(KeyLeq, a) && KeyLeq(x, y) && KeyLeq(y, x) ensures x == y {
      KeyTies(x, y);
    }
    hide Preorder, KeyLeq, Sort;
    SortedUnique(KeyLeq, Sort(KeyLeq, a), Sort(KeyLeq, b));
  }

  // With distinct (name, kind) pairs the text is exactly as fine as the collection of entries.
  lemma TextIffEntries(a: seq<Entry>, b: seq<Entry>)
    requires forall e :: e in a || e in b ==> e.Valid()
    requires DistinctNames(a)
    ensures InventoryText(a) == InventoryText(b) <==> multiset(a) == multiset(b)
  {
    hide InventoryText;
    if InventoryText(a) == InventoryText(b) { TextDeterminesEntries(a, b); }
    if multiset(a) == multiset(b) { EntriesDetermineText(a, b); }
  }

  lemma FieldAppend(h: string, value: string, sep: char, rest: string)
    ensures h + Field(value, sep, rest) == (h + value + [sep]) + rest
  {
  }

  // Feeding an entry's fields one by one to the digest feeds its line.
  lemma LineAppend(h: string, e: Entry, rest: string)
    ensures h + e.LineThen(rest)
            == h + e.name + [NUL] + e.kind.Name() + [NUL] + Decimal(e.size) + [NUL] + e.HashText() + ['\n'] + rest
  {
    hide Field, Decimal, Entry.HashText;
    var r3 := Field(e.HashText(), '\n', rest);
    var r2 := Field(Decimal(e.size), NUL, r3);
    var r1 := Field(e.kind.Name(), NUL, r2);
    FieldAppend(h, e.name, NUL, r1);
    FieldAppend(h + e.name + [NUL], e.kind.Name(), NUL, r2);
    FieldAppend(h + e.name + [NUL] + e.kind.Name() + [NUL], Decimal(e.size), NUL, r3);
    FieldAppend(h + e.name + [NUL] + e.kind.Name() + [NUL] + Decimal(e.size) + [NUL], e.HashText(), '\n', rest);
  }

  // SHA-256 of texts and of file contents, as lower-case hexadecimal.
  datatype Sha256 = Sha256(ofText: string -> string, ofFile: string -> string) {
    ghost predicate Valid() { forall x :: IsSha256(ofText(x)) && IsSha256(ofFile(x)) }
  }

  method RawInventoryDigest(sha: Sha256, entries: seq<Entry>) returns (digest: string)
    ensures digest == sha.ofText(InventoryText(entries))
  {
    hide Entry.LineThen, Decimal, Entry.HashText;
    var ordered := Sort(KeyLeq, entries);
    var hashed := "";
    for i := 0 to |ordered|
      invariant hashed + Lines(ordered[i..]) == Lines(ordered)
    {
      var entry := ordered[i];
      assert ordered[i..][1..] == ordered[i + 1..];
      LineAppend(hashed, entry, Lines(ordered[i + 1..]));
      hashed := hashed + entry.name;
      hashed := hashed + [NUL];
      hashed := hashed + entry.kind.Name();
      hashed := hashed + [NUL];
      hashed := hashed + Decimal(entry.size);
      hashed := hashed + [NUL];
      hashed := hashed + entry.HashText();
      hashed := hashed + ['\n'];
    }
    assert hashed == Lines(ordered);
    digest := sha.ofText(hashed);
  }

  // The four figures an inventory is compared by.
  datatype Summary = Summary(files: nat, directories: nat, bytes: nat, digest: string)

  function FileCount(entries: seq<Entry>): nat {
    if entries == [] then 0 else (if entries[0].kind == File then 1 else 0) + FileCount(entries[1..])
  }

  function DirectoryCount(entries: seq<Entry>): nat {
    if entries == [] then 0 else (if entries[0].kind == Directory then 1 else 0) + DirectoryCount(entries[1..])
  }

  function TotalBytes(entries: seq<Entry>): nat {
    if entries == [] then 0 else (if entries[0].kind == File then entries[0].size else 0) + TotalBytes(entries[1..])
  }

  lemma {:induction false} FiguresAppend(a: seq<Entry>, b: seq<Entry>)
    ensures FileCount(a + b) == FileCount(a) + FileCount(b)
    ensures DirectoryCount(a + b) == DirectoryCount(a) + DirectoryCount(b)
    ensures TotalBytes(a + b) == TotalBytes(a) + TotalBytes(b)
  {
    if a == [] {
      assert a + b == b;
    } else {
      assert (a + b)[1..] == a[1..] + b;
      FiguresAppend(a[1..], b);
    }
  }

  lemma FiguresOne(e: Entry)
    ensures FileCount([e]) == (if e.kind == File then 1 else 0) && DirectoryCount([e]) == (if e.kind == Directory then 1 else 0)
    ensures TotalBytes([e]) == if e.kind == File then e.size else 0
  {
    assert [e][1..] == [];
  }

  function Sum(sizes: seq<nat>): nat { if sizes == [] then 0 else Sum(sizes[..|sizes| - 1]) + sizes[|sizes| - 1] }

  // The sizes of the files, 0 standing for a directory.
  function FileSizes(entries: seq<Entry>): seq<nat> {
    seq(|entries|, i requires 0 <= i < |entries| => if entries[i].kind == File then entries[i].size else 0)
  }

  // The positions of the entries of a kind.
  function Positions(entries: seq<Entry>, k: Kind): set<nat> { set i: nat | i < |entries| && entries[i].kind == k }

  lemma PositionsSnoc(most: seq<Entry>, last: Entry, k: Kind)
    ensures |Positions(most + [last], k)| == |Positions(most, k)| + if last.kind == k then 1 else 0
  {
    assert Positions(most + [last], k) == Positions(most, k) + if last.kind == k then {|most|} else {};
  }

  // The figures are the number of the file entries, the number of the directory
  // entries, and the total size of the file entries.
  lemma {:induction false} FiguresAre(entries: seq<Entry>)
    ensures FileCount(entries) == |Positions(entries, File)| && DirectoryCount(entries) == |Positions(entries, Directory)|
    ensures TotalBytes(entries) == Sum(FileSizes(entries))
  {
    if entries == [] {
      assert Positions(entries, File) == {} && Positions(entries, Directory) == {};
    } else {
      var n := |entries| - 1;
      var most, last := entries[..n], entries[n];
      hide Positions, FileCount, DirectoryCount, TotalBytes, FileSizes;
      assert most + [last] == entries;
      FiguresAre(most);
      FiguresAppend(most, [last]);
      FiguresOne(last);
      PositionsSnoc(most, last, File);
      PositionsSnoc(most, last, Directory);
      SumSnoc(most, last);
    }
  }

  lemma SumSnoc(most: seq<Entry>, last: Entry)
    ensures Sum(FileSizes(most + [last])) == Sum(FileSizes(most)) + if last.kind == File then last.size else 0
  {
    assert FileSizes(most + [last])[..|most|] == FileSizes(most);
  }

  function Summarize(sha: Sha256, entries: seq<Entry>): Summary {
    Summary(FileCount(entries), DirectoryCount(entries), TotalBytes(entries), sha.ofText(InventoryText(entries)))
  }

  // One member of a tar archive.
  datatype MemberType = RegularMember | DirectoryMember | HardLink | SymbolicLink | OtherMember
  datatype Member = Member(name: string, kind: MemberType, content: string)

  const ROOT := "raw_storage"

  predicate RealPart(part: string) { part != "" && part != "." }

  function RealParts(parts: seq<string>): seq<string> {
    if parts == [] then [] else (if RealPart(parts[0]) then [parts[0]] else []) + RealParts(parts[1..])
  }

  // Python's `Path(name).parts` for a name that does not start with a slash.
  function PathParts(name: string): seq<string> { RealParts(Split(name, '/')) }

  predicate SafeMember(m: Member) {
    var parts := PathParts(m.name);
    && !(m.name != "" && m.name[0] == '/')
    && ".." !in parts
    && |parts| >= 2 && parts[0] == ROOT
    && m.kind != SymbolicLink && m.kind != HardLink
  }

  // The inventory entry of an archive member; None for a member that is refused.
  function EntryOf(sha: Sha256, m: Member): Option<Entry> {
    if !SafeMember(m) then None
    else
      var relative := Join(PathParts(m.name)[1..], "/");
      match m.kind
      case RegularMember => Some(Entry(relative, File, |m.content|, Some(sha.ofFile(m.content))))
      case DirectoryMember => Some(Entry(relative, Directory, 0, None))
      case _ => None
  }

  function EntriesOf(sha: Sha256, members: seq<Member>): Option<seq<Entry>> {
    if members == [] then Some([])
    else
      var first, rest := EntryOf(sha, members[0]), EntriesOf(sha, members[1..]);
      if first == None || rest == None then None else Some([first.value] + rest.value)
  }

  lemma {:induction false} EntriesAppend(sha: Sha256, members: seq<Member>, m: Member)
    ensures EntriesOf(sha, members + [m])
            == if EntriesOf(sha, members) == None || EntryOf(sha, m) == None then None
               else Some(EntriesOf(sha, members).value + [EntryOf(sha, m).value])
  {
    if members == [] {
      assert members + [m] == [m] && [m][1..] == [];
      var last := EntryOf(sha, m);
      assert last.Some? ==> [last.value] + [] == [] + [last.value];
    } else {
      EntriesAppend(sha, members[1..], m);
      assert (members + [m])[1..] == members[1..] + [m] && (members + [m])[0] == members[0];
      var first, rest, last := EntryOf(sha, members[0]), EntriesOf(sha, members[1..]), EntryOf(sha, m);
      if first.Some? && rest.Some? && last.Some? {
        assert [first.value] + (rest.value + [last.value]) == [first.value] + rest.value + [last.value];
      }
    }
  }

  lemma {:induction false} RefusedPrefix(sha: Sha256, members: seq<Member>, i: nat)
    requires i < |members| && EntryOf(sha, members[i]) == None
    ensures EntriesOf(sha, members) == None
  {
    if i > 0 { RefusedPrefix(sha, members[1..], i - 1); }
  }

  lemma {:induction false} RealPartsAre(parts: seq<string>)
    ensures forall x :: x in RealParts(parts) <==> x in parts && x != "" && x != "."
  {
    if parts != [] {
      RealPartsAre(parts[1..]);
      assert parts == [parts[0]] + parts[1..];
    }
  }

  // A member is read if and only if it is a plain file or a directory, its name
  // is relative without "..", and it lies below raw_storage.
  lemma ReadMembers(sha: Sha256, m: Member)
    ensures EntryOf(sha, m).Some?
            <==> && (m.kind == RegularMember || m.kind == DirectoryMember)
                 && (m.name == "" || m.name[0] != '/') && ".." !in Split(m.name, '/')
                 && |PathParts(m.name)| >= 2 && PathParts(m.name)[0] == "raw_storage"
    ensures EntryOf(sha, m).Some? ==>
              var e := EntryOf(sha, m).value;
              && "raw_storage/" + e.name == Join(PathParts(m.name), "/")
              && e == if m.kind == RegularMember then Entry(e.name, File, |m.content|, Some(sha.ofFile(m.content)))
                      else Entry(e.name, Directory, 0, None)
  {
    RealPartsAre(Split(m.name, '/'));
    var parts := PathParts(m.name);
    if |parts| >= 2 && parts[0] == "raw_storage" {
      assert Join(parts, "/") == parts[0] + "/" + Join(parts[1..], "/");
    }
  }

  lemma {:induction false} EntriesAt(sha: Sha256, members: seq<Member>, i: nat)
    requires EntriesOf(sha, members).Some? && i < |members|
    ensures |EntriesOf(sha, members).value| == |members| && EntryOf(sha, members[i]) == Some(EntriesOf(sha, members).value[i])
  {
    if i > 0 {
      EntriesAt(sha, members[1..], i - 1);
    } else if |members| > 1 {
      EntriesAt(sha, members[1..], 0);
    }
  }

  predicate Accepts(sha: Sha256, members: seq<Member>, expected: Summary) {
    var entries := EntriesOf(sha, members);
    entries.Some? && Summarize(sha, entries.value) == expected
  }

  method VerifyRawStorageArchive(sha: Sha256, members: seq<Member>, expected: Summary) returns (ok: bool)
    ensures ok == Accepts(sha, members, expected)
  {
    var entries: seq<Entry> := [];
    for i := 0 to |members|
      invariant EntriesOf(sha, members[..i]) == Some(entries)
    {
      var member := members[i];
      assert members[..i + 1] == members[..i] + [member];
      EntriesAppend(sha, members[..i], member);
      var parts := PathParts(member.name);
      if (member.name != "" && member.name[0] == '/') || ".." in parts || |parts| < 2 || parts[0] != ROOT
         || member.kind == SymbolicLink || member.kind == HardLink {
        RefusedPrefix(sha, members, i);
        return false;
      }
      var relative := Join(parts[1..], "/");
      if member.kind == RegularMember {
        entries := entries + [Entry(relative, File, |member.content|, Some(sha.ofFile(member.content)))];
      } else if member.kind == DirectoryMember {
        entries := entries + [Entry(relative, Directory, 0, None)];
      } else {
        RefusedPrefix(sha, members, i);
        return false;
      }
    }
    assert members[..|members|] == members;
    var digest := RawInventoryDigest(sha, entries);
    ok := Summary(FileCount(entries), DirectoryCount(entries), TotalBytes(entries), digest) == expected;
  }

  // Accepting leaves only the source's entries, unless two inventory texts collide under SHA-256.
  lemma AcceptsOnlySource(sha: Sha256, members: seq<Member>, source: seq<Entry>)
    requires sha.Valid() && (forall e :: e in source ==> e.Valid()) && (forall m :: m in members ==> Lacks(m.name, NUL))
    requires Accepts(sha, members, Summarize(sha, source))
    requires var text := InventoryText(EntriesOf(sha, members).value);
             sha.ofText(text) == sha.ofText(InventoryText(source)) ==> text == InventoryText(source)
    ensures multiset(EntriesOf(sha, members).value) == multiset(source)
  {
    EntriesValid(sha, members);
    TextDeterminesEntries(EntriesOf(sha, members).value, source);
  }

  lemma {:induction false} SplitKeepsLacking(s: string, sep: char, c: char)
    requires Lacks(s, c)
    ensures AllLack(Split(s, sep), c)
  {
    if s != [] { SplitKeepsLacking(s[1..], sep, c); }
  }

  lemma {:induction false} JoinLacks(parts: seq<string>, sep: string, c: char)
    requires AllLack(parts, c) && Lacks(sep, c)
    ensures Lacks(Join(parts, sep), c)
  {
    if |parts| > 1 { JoinLacks(parts[1..], sep, c); }
  }

  lemma {:induction false} RealPartsLack(parts: seq<string>, c: char)
    requires AllLack(parts, c)
    ensures AllLack(RealParts(parts), c)
  {
    if parts != [] { RealPartsLack(parts[1..], c); }
  }

  lemma {:induction false} EntriesValid(sha: Sha256, members: seq<Member>)
    requires sha.Valid() && (forall m :: m in members ==> Lacks(m.name, NUL)) && EntriesOf(sha, members).Some?
    ensures forall e :: e in EntriesOf(sha, members).value ==> e.Valid()
  {
    if members != [] {
      EntriesValid(sha, members[1..]);
      var name := members[0].name;
      assert members[0] in members;
      SplitKeepsLacking(name, '/', NUL);
      RealPartsLack(Split(name, '/'), NUL);
      JoinLacks(PathParts(name)[1..], "/", NUL);
    }
  }

  // The raw-storage tree on disk, by name relative to its root.
  datatype Node = RegularNode(content: string, inode: nat) | DirectoryNode | LinkNode
  type Tree = map<string, Node>

  // A name as os.walk builds it: real components joined by single slashes.
  ghost predicate Normal(name: string) {
    forall part :: part in Split(name, '/') ==> RealPart(part) && part != ".."
  }

  function ScanEntry(sha: Sha256, name: string, node: Node): Option<Entry> {
    match node
    case RegularNode(content, _) => Some(Entry(name, File, |content|, Some(sha.ofFile(content))))
    case DirectoryNode => Some(Entry(name, Directory, 0, None))
    case LinkNode => None
  }

  // A scan of an unchanged tree, in walking order; symbolic links refuse it.
  function Scan(sha: Sha256, names: seq<string>, tree: Tree): Option<seq<Entry>>
    requires forall n :: n in names ==> n in tree
  {
    if names == [] then Some([])
    else
      var first, rest := ScanEntry(sha, names[0], tree[names[0]]), Scan(sha, names[1..], tree);
      if first == None || rest == None then None else Some([first.value] + rest.value)
  }

  // The member tarfile writes for an entry: a later name of an inode already archived becomes a hard link.
  function Archived(entry: Entry, tree: Tree, inodes: set<nat>): Option<Member> {
    if entry.name !in tree then None
    else
      var stored := ROOT + "/" + entry.name;
      match tree[entry.name]
      case LinkNode => None
      case DirectoryNode => if entry.kind == Directory then Some(Member(stored, DirectoryMember, "")) else None
      case RegularNode(content, inode) =>
        if entry.kind != File then None
        else if inode in inodes then Some(Member(stored, HardLink, ""))
        else Some(Member(stored, RegularMember, content))
  }

  function InodesWith(entry: Entry, tree: Tree, inodes: set<nat>): set<nat> {
    if entry.name in tree && tree[entry.name].RegularNode? then inodes + {tree[entry.name].inode} else inodes
  }

  function Pack(entries: seq<Entry>, tree: Tree, inodes: set<nat>): Option<seq<Member>> {
    if entries == [] then Some([])
    else
      var first := Archived(entries[0], tree, inodes);
      var rest := Pack(entries[1..], tree, InodesWith(entries[0], tree, inodes));
      if first == None || rest == None then None else Some([first.value] + rest.value)
  }

  method CreateRawStorageArchive(entries: seq<Entry>, tree: Tree) returns (members: Option<seq<Member>>)
    ensures members == Pack(entries, tree, {})
  {
    var written: seq<Member> := [];
    var inodes: set<nat> := {};
    assert entries[0..] == entries;
    assert Pack(entries, tree, {}).Some? ==> [] + Pack(entries, tree, {}).value == Pack(entries, tree, {}).value;
    for i := 0 to |entries|
      invariant Pack(entries, tree, {})
                == var rest := Pack(entries[i..], tree, inodes);
                   if rest == None then None else Some(written + rest.value)
    {
      var entry := entries[i];
      assert entries[i..][1..] == entries[i + 1..];
      ghost var later := Pack(entries[i + 1..], tree, InodesWith(entry, tree, inodes));
      var member := Archived(entry, tree, inodes);
      if member == None {
        return None;
      }
      assert later.Some? ==> written + ([member.value] + later.value) == (written + [member.value]) + later.value;
      written := written + [member.value];
      inodes := InodesWith(entry, tree, inodes);
    }
    assert written + [] == written;
    return Some(written);
  }

  ghost predicate NoHardLinks(names: seq<string>, tree: Tree, inodes: set<nat>)
    requires forall n :: n in names ==> n in tree
  {
    && (forall n :: n in names && tree[n].RegularNode? ==> tree[n].inode !in inodes)
    && (forall i, j :: 0 <= i < j < |names| && tree[names[i]].RegularNode? && tree[names[j]].RegularNode?
                       ==> tree[names[i]].inode != tree[names[j]].inode)
  }

  lemma {:induction false} RealPartsSame(parts: seq<string>)
    requires forall p :: p in parts ==> RealPart(p)
    ensures RealParts(parts) == parts
  {
    if parts != [] {
      RealPartsSame(parts[1..]);
      assert parts == [parts[0]] + parts[1..];
    }
  }

  lemma StoredNameParts(name: string)
    requires Normal(name)
    ensures PathParts(ROOT + "/" + name) == [ROOT] + Split(name, '/')
    ensures Join(Split(name, '/'), "/") == name && ".." !in Split(name, '/')
  {
    JoinSplit(name, '/');
    SplitAt(ROOT, '/', name);
    RealPartsSame([ROOT] + Split(name, '/'));
  }

  lemma ArchivedEntry(sha: Sha256, name: string, tree: Tree, inodes: set<nat>)
    requires name in tree && Normal(name) && ScanEntry(sha, name, tree[name]).Some?
    ensures var e := ScanEntry(sha, name, tree[name]).value;
            && e.name == name && Archived(e, tree, inodes).Some?
            && EntryOf(sha, Archived(e, tree, inodes).value)
               == if tree[name].RegularNode? && tree[name].inode in inodes then None else Some(e)
  {
    StoredNameParts(name);
    assert ([ROOT] + Split(name, '/'))[1..] == Split(name, '/');
  }

  lemma {:induction false} PackReadsBack(sha: Sha256, names: seq<string>, tree: Tree, inodes: set<nat>)
    requires (forall n :: n in names ==> n in tree && Normal(n)) && Scan(sha, names, tree).Some?
    ensures var entries := Scan(sha, names, tree).value;
            && Pack(entries, tree, inodes).Some?
            && EntriesOf(sha, Pack(entries, tree, inodes).value)
               == if NoHardLinks(names, tree, inodes) then Some(entries) else None
  {
    if names != [] {
      var name, entries := names[0], Scan(sha, names, tree).value;
      assert entries[1..] == Scan(sha, names[1..], tree).value;
      ArchivedEntry(sha, name, tree, inodes);
      var later := InodesWith(entries[0], tree, inodes);
      PackReadsBack(sha, names[1..], tree, later);
      NoHardLinksCons(names, tree, inodes);
    }
  }

  lemma NoHardLinksCons(names: seq<string>, tree: Tree, inodes: set<nat>)
    requires names != [] && forall n :: n in names ==> n in tree
    ensures var head := tree[names[0]];
            NoHardLinks(names, tree, inodes)
            <==> !(head.RegularNode? && head.inode in inodes)
                 && NoHardLinks(names[1..], tree, if head.RegularNode? then inodes + {head.inode} else inodes)
  {
    var head := tree[names[0]];
    var later := if head.RegularNode? then inodes + {head.inode} else inodes;
    if !(head.RegularNode? && head.inode in inodes) && NoHardLinks(names[1..], tree, later) {
      forall i, j | 0 <= i < j < |names| && tree[names[i]].RegularNode? && tree[names[j]].RegularNode?
        ensures tree[names[i]].inode != tree[names[j]].inode
      {
        assert names[j] == names[1..][j - 1];
        if i > 0 { assert names[i] == names[1..][i - 1]; }
      }
      forall n | n in names && tree[n].RegularNode? ensures tree[n].inode !in inodes {
        if n != names[0] { assert n in names[1..]; }
      }
    }
  }

  // The archive written from an unchanged tree verifies exactly if no two of
  // its files are hard links of each other.
  lemma UnchangedSourceVerifies(sha: Sha256, names: seq<string>, tree: Tree)
    requires (forall n :: n in names ==> n in tree && Normal(n)) && Scan(sha, names, tree).Some?
    ensures var entries := Scan(sha, names, tree).value;
            && Pack(entries, tree, {}).Some?
            && (Accepts(sha, Pack(entries, tree, {}).value, Summarize(sha, entries))
                <==> forall i, j :: 0 <= i < j < |names| && tree[names[i]].RegularNode? && tree[names[j]].RegularNode?
                                    ==> tree[names[i]].inode != tree[names[j]].inode)
  {
    PackReadsBack(sha, names, tree, {});
  }

  // For instance a tree of two names for one file is refused.
  lemma HardLinksRefused(sha: Sha256, content: string, inode: nat)
    ensures var names, tree := ["a", "b"], map["a" := RegularNode(content, inode), "b" := RegularNode(content, inode)];
            var entries := Scan(sha, names, tree);
            && entries.Some? && Pack(entries.value, tree, {}).Some?
            && !Accepts(sha, Pack(entries.value, tree, {}).value, Summarize(sha, entries.value))
  {
    var names, tree := ["a", "b"], map["a" := RegularNode(content, inode), "b" := RegularNode(content, inode)];
    assert Normal("a") by { SplitWhole("a", '/'); }
    assert Normal("b") by { SplitWhole("b", '/'); }
    assert names[1..] == ["b"] && names[1..][1..] == [];
    assert Scan(sha, [], tree) == Some([]);
    assert Scan(sha, ["b"], tree).Some?;
    hide Accepts, Pack, Summarize, Normal;
    UnchangedSourceVerifies(sha, names, tree);
    assert tree[names[0]].RegularNode? && tree[names[1]].RegularNode? && tree[names[0]].inode == tree[names[1]].inode;
  }
}
