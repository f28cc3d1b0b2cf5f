/** What the ustar parser guarantees on arbitrary bytes, and that it reads back every encoded archive. */
module TarArchive {
  import opened KernelTypes
  import opened Tar

  // ----- arbitrary bytes ------------------------------------------------------------------------------

  /** The entries' data lie below limit, in order, each after a header block of its own. */
  ghost predicate Laid(files: seq<Entry>, limit: nat) {
    && |files| <= MAX_FILES
    && (forall i :: 0 <= i < |files| ==> BLOCK <= files[i].start && files[i].start + files[i].size <= limit)
    && (forall i, j :: 0 <= i < j < |files| ==> files[i].start + files[i].size + BLOCK <= files[j].start)
    && (forall i :: 0 <= i < |files| ==> 2 <= |files[i].path| < MAX_PATH && files[i].path[0] == SLASH)
    && (forall i, k :: 0 <= i < |files| && 0 <= k < |files[i].path| ==> files[i].path[k] != 0)
  }

  lemma MemberSafe(image: seq<byte>, offset: nat, files: seq<Entry>)
    requires offset + BLOCK <= |image| && Laid(files, offset) && ReadMember(image, offset, files).Good?
    ensures Laid(ReadMember(image, offset, files).value.0, ReadMember(image, offset, files).value.1)
  {
    hide Octal, Normalized, IsFile, SizeField, NameField, PrefixField;
  }

  lemma {:induction false} ParseFromSafe(image: seq<byte>, offset: nat, files: seq<Entry>)
    requires offset <= |image| && Laid(files, offset) && ParseFrom(image, offset, files).Good?
    ensures Laid(ParseFrom(image, offset, files).value, |image|) && ParseFrom(image, offset, files).value != []
    decreases |image| - offset
  {
    hide ReadMember, AllZero;
    if offset + BLOCK <= |image| && !AllZero(image[offset..offset + BLOCK]) {
      MemberSafe(image, offset, files);
      var r := ReadMember(image, offset, files).value;
      ParseFromSafe(image, r.1, r.0);
    }
  }

  /**
   * On arbitrary bytes: the parser ends, and every file it records lies inside the image, behind a header,
   * disjoint from all others and in order, under an absolute path that fits its buffer.
   */
  lemma ParseSafe(image: seq<byte>)
    ensures Parse(image).Good? ==> Parse(image).value != [] && Laid(Parse(image).value, |image|)
  {
    if Parse(image).Good? {
      ParseFromSafe(image, 0, []);
    }
  }

  // ----- the encoding ------------------------------------------------------------------------------------

  /** A member of an archive; owner is mode, uid and gid, stamp is mtime and checksum, link is linkname to devminor. */
  datatype Member = Member(name: Path, owner: seq<byte>, terminator: byte, stamp: seq<byte>, typeflag: byte,
                           link: seq<byte>, prefix: Path, tail: seq<byte>, data: seq<byte>)

  predicate NoNul(s: seq<byte>) { forall i :: 0 <= i < |s| ==> s[i] != 0 }

  function Zeros(n: nat): (r: seq<byte>)
    ensures |r| == n && AllZero(r)
  {
    seq(n, i => 0)
  }

  function Pad(s: seq<byte>, n: nat): (r: seq<byte>)
    requires |s| <= n
    ensures |r| == n
  {
    s + Zeros(n - |s|)
  }

  function Pow8(n: nat): nat { if n == 0 then 1 else 8 * Pow8(n - 1) }

  function Digit(d: nat): byte
    requires d < 8
  {
    ZERO + d
  }

  /** The lowest width octal digits of n, most significant first. */
  function Digits(n: nat, width: nat): (r: seq<byte>)
    ensures |r| == width && AllOctal(r)
  {
    if width == 0 then [] else Digits(n / 8, width - 1) + [Digit(n % 8)]
  }

  predicate Encodable(m: Member) {
    && |m.name| <= 100 && NoNul(m.name) && |m.prefix| <= 155 && NoNul(m.prefix)
    && |m.owner| == 24 && |m.stamp| == 20 && |m.link| == 188 && |m.tail| == 12
    && (m.terminator == 0 || m.terminator == SPACE) && |m.data| < Pow8(11)
    && (IsFileMember(m) ==> 2 <= |FullPath(m)| < MAX_PATH)
  }

  predicate IsFileMember(m: Member) { m.typeflag == ZERO || m.typeflag == 0 }

  function Stripped(name: Path): Path { if |name| >= 2 && name[0] == DOT && name[1] == SLASH then name[2..] else name }

  function FullPath(m: Member): Path {
    var root: Path := [SLASH];
    root + (if m.prefix == [] then [] else m.prefix + root) + Stripped(m.name)
  }

  function Header(m: Member): (h: seq<byte>)
    requires Encodable(m)
    ensures |h| == BLOCK
  {
    Pad(m.name, 100) + m.owner + (Digits(|m.data|, 11) + [m.terminator]) + m.stamp + [m.typeflag] + m.link
    + Pad(m.prefix, 155) + m.tail
  }

  function Encoded(m: Member): (r: seq<byte>)
    requires Encodable(m)
    ensures |r| == BLOCK + Padded(|m.data|)
  {
    Header(m) + m.data + Zeros(Padded(|m.data|) - |m.data|)
  }

  predicate AllEncodable(ms: seq<Member>) { forall i :: 0 <= i < |ms| ==> Encodable(ms[i]) }

  function Archive(ms: seq<Member>): seq<byte>
    requires AllEncodable(ms)
  {
    if ms == [] then [] else Encoded(ms[0]) + Archive(ms[1..])
  }

  /** The regular files of an archive, in order. */
  function FilesOf(ms: seq<Member>): seq<Member> {
    if ms == [] then []
    else if IsFileMember(ms[0]) then [ms[0]] + FilesOf(ms[1..])
    else FilesOf(ms[1..])
  }

  // ----- fields survive ---------------------------------------------------------------------------------------

  lemma {:induction false} CTextOf(s: seq<byte>, n: nat)
    requires NoNul(s)
    ensures CText(s + Zeros(n)) == s
    decreases |s|
  {
    if s != [] {
      assert (s + Zeros(n))[1..] == s[1..] + Zeros(n);
      CTextOf(s[1..], n);
    }
  }

  lemma {:induction false} FieldTextOf(s: seq<byte>, t: byte)
    requires AllOctal(s) && (t == 0 || t == SPACE)
    ensures FieldText(s + [t]) == s
    decreases |s|
  {
    if s != [] {
      assert (s + [t])[1..] == s[1..] + [t];
      FieldTextOf(s[1..], t);
    }
  }

  lemma {:induction false} ValueOfDigits(n: nat, width: nat)
    requires n < Pow8(width)
    ensures OctalValue(Digits(n, width)) == n
    decreases width
  {
    if width > 0 {
      ValueOfDigits(n / 8, width - 1);
      var d := Digits(n, width);
      assert d[..width - 1] == Digits(n / 8, width - 1) && d[width - 1] == Digit(n % 8);
    }
  }

  lemma OctalOfDigits(n: nat, t: byte)
    requires n < Pow8(11) && (t == 0 || t == SPACE)
    ensures Octal(Digits(n, 11) + [t]) == Good(n)
  {
    FieldTextOf(Digits(n, 11), t);
    ValueOfDigits(n, 11);
  }

  lemma HeaderFields(m: Member)
    requires Encodable(m)
    ensures var h := Header(m);
      && NameField(h) == Pad(m.name, 100) && SizeField(h) == Digits(|m.data|, 11) + [m.terminator]
      && PrefixField(h) == Pad(m.prefix, 155) && (IsFile(h) <==> IsFileMember(m)) && !AllZero(h)
  {
    hide Pad, Digits;
    var h := Header(m);
    var size := Digits(|m.data|, 11) + [m.terminator];
    var a := Pad(m.name, 100) + m.owner;
    var b := a + size;
    var c := b + m.stamp + [m.typeflag] + m.link;
    assert h == c + (Pad(m.prefix, 155) + m.tail);
    assert h[345..500] == Pad(m.prefix, 155);
    assert h == b + (m.stamp + [m.typeflag] + m.link + Pad(m.prefix, 155) + m.tail);
    assert h[124..136] == size;
    assert h[124] == size[0] != 0;
    assert h[156] == m.typeflag;
  }

  lemma PathSurvives(m: Member)
    requires Encodable(m) && IsFileMember(m)
    ensures Normalized(Pad(m.prefix, 155), Pad(m.name, 100)) == Good(FullPath(m))
  {
    CTextOf(m.prefix, 155 - |m.prefix|);
    NameSurvives(m.name);
    hide Normalized, CText, NameText, Stripped, NoNul;
    Joined(Pad(m.prefix, 155), Pad(m.name, 100), m.prefix, Stripped(m.name));
  }

  lemma NameSurvives(name: Path)
    requires |name| <= 100 && NoNul(name)
    ensures NameText(Pad(name, 100)) == Stripped(name)
  {
    var field := Pad(name, 100);
    hide CText;
    if |name| >= 2 && name[0] == DOT && name[1] == SLASH {
      assert field[2..] == name[2..] + Zeros(100 - |name|);
      CTextOf(name[2..], 100 - |name|);
    } else {
      CTextOf(name, 100 - |name|);
      assert !(field[0] == DOT && field[1] == SLASH);
    }
  }

  lemma Joined(prefixField: seq<byte>, nameField: seq<byte>, prefix: Path, name: Path)
    requires |nameField| >= 2 && CText(prefixField) == prefix && NameText(nameField) == name
    requires 1 + (if prefix == [] then 0 else |prefix| + 1) + |name| < MAX_PATH && (prefix != [] || name != [])
    ensures var root: Path := [SLASH];
      Normalized(prefixField, nameField) == Good(root + (if prefix == [] then [] else prefix + root) + name)
  {
    hide CText, NameText;
    var root: Path := [SLASH];
    if prefix == [] {
      assert root + prefix == root && root + [] + name == root + name;
    } else {
      assert root + prefix + root + name == root + (prefix + root) + name;
    }
  }

  // ----- the round trip -----------------------------------------------------------------------------------------

  /** Where an archive may end: a rest shorter than a block, or a zero block and anything after it. */
  predicate Ends(rest: seq<byte>) { |rest| < BLOCK || AllZero(rest[..BLOCK]) }

  function Added(files: seq<Entry>, m: Member, offset: nat): seq<Entry> {
    if IsFileMember(m) then files + [Entry(FullPath(m), offset + BLOCK, |m.data|)] else files
  }

  /** The entries of an archive that starts at offset. */
  function Entries(ms: seq<Member>, offset: nat): (r: seq<Entry>)
    ensures |r| == |FilesOf(ms)|
  {
    if ms == [] then [] else Added([], ms[0], offset) + Entries(ms[1..], offset + BLOCK + Padded(|ms[0].data|))
  }

  lemma ReadEncoded(before: seq<byte>, m: Member, after: seq<byte>, files: seq<Entry>)
    requires Encodable(m) && (IsFileMember(m) ==> |files| < MAX_FILES)
    ensures var image, offset := before + Encoded(m) + after, |before|;
      && !AllZero(image[offset..offset + BLOCK])
      && ReadMember(image, offset, files) == Good((Added(files, m, offset), offset + |Encoded(m)|))
      && image[offset + BLOCK..offset + BLOCK + |m.data|] == m.data
  {
    hide Header, Normalized, Octal, Digits, Pad, AllZero, Encodable;
    HeaderFields(m);
    OctalSize(m);
    if IsFileMember(m) {
      PathSurvives(m);
    }
    var image, offset := before + Encoded(m) + after, |before|;
    assert image[offset..offset + BLOCK] == Header(m);
    assert image[offset + BLOCK..offset + BLOCK + |m.data|] == m.data;
  }

  lemma OctalSize(m: Member)
    requires Encodable(m)
    ensures Octal(Digits(|m.data|, 11) + [m.terminator]) == Good(|m.data|)
  {
    OctalOfDigits(|m.data|, m.terminator);
  }

  lemma ParseEnd(before: seq<byte>, rest: seq<byte>, files: seq<Entry>)
    requires Ends(rest)
    ensures ParseFrom(before + rest, |before|, files) == if files == [] then Bad(NoEnt) else Good(files)
  {
    hide AllZero, ReadMember;
    if |rest| >= BLOCK {
      assert (before + rest)[|before|..|before| + BLOCK] == rest[..BLOCK];
    }
  }

  lemma {:induction false} ParseArchive(before: seq<byte>, ms: seq<Member>, rest: seq<byte>, files: seq<Entry>)
    requires AllEncodable(ms) && Ends(rest) && |files| + |FilesOf(ms)| <= MAX_FILES
    ensures var image := before + Archive(ms) + rest;
      var all := files + Entries(ms, |before|);
      ParseFrom(image, |before|, files) == if all == [] then Bad(NoEnt) else Good(all)
    decreases |ms|
  {
    hide ReadMember, Encoded, Encodable, FullPath, Padded, AllZero, ParseFrom, Added, Ends, Entries;
    var image := before + Archive(ms) + rest;
    NextEntries(ms, |before|, files);
    if ms == [] {
      ParseEnd(before, rest, files);
      assert before + [] + rest == before + rest;
    } else {
      var m, code := ms[0], Encoded(ms[0]);
      var tail := Archive(ms[1..]) + rest;
      assert image == before + code + tail;
      ReadEncoded(before, m, tail, files);
      var files' := Added(files, m, |before|);
      NextMember(image, |before|, files, files', |before + code|);
      ParseArchive(before + code, ms[1..], rest, files');
      assert image == (before + code) + Archive(ms[1..]) + rest;
    }
  }

  lemma NextMember(image: seq<byte>, offset: nat, files: seq<Entry>, files': seq<Entry>, next: nat)
    requires offset + BLOCK <= |image| && !AllZero(image[offset..offset + BLOCK])
    requires ReadMember(image, offset, files) == Good((files', next))
    ensures next <= |image| && ParseFrom(image, offset, files) == ParseFrom(image, next, files')
  {
    hide ReadMember, AllZero;
  }

  lemma NextEntries(ms: seq<Member>, offset: nat, files: seq<Entry>)
    requires AllEncodable(ms)
    ensures ms == [] ==> files + Entries(ms, offset) == files
    ensures ms != [] ==>
      && files + Entries(ms, offset) == Added(files, ms[0], offset) + Entries(ms[1..], offset + |Encoded(ms[0])|)
      && |Added(files, ms[0], offset)| + |FilesOf(ms[1..])| == |files| + |FilesOf(ms)|
      && (IsFileMember(ms[0]) ==> |FilesOf(ms)| > 0)
  {
    hide Encodable, FullPath, Padded, Encoded, Added, Entries, FilesOf;
    EntriesUnfold(ms, offset);
    FilesUnfold(ms);
    if ms != [] {
      AddedApart(files, ms[0], offset);
      var a, next := Added([], ms[0], offset), Entries(ms[1..], offset + |Encoded(ms[0])|);
      assert files + (a + next) == (files + a) + next;
    }
  }

  lemma EntriesUnfold(ms: seq<Member>, offset: nat)
    requires AllEncodable(ms)
    ensures ms == [] ==> Entries(ms, offset) == []
    ensures ms != [] ==>
      Entries(ms, offset) == Added([], ms[0], offset) + Entries(ms[1..], offset + |Encoded(ms[0])|)
  {
    hide Encodable, FullPath, Padded, Encoded, Added, FilesOf;
  }

  lemma FilesUnfold(ms: seq<Member>)
    ensures ms == [] ==> FilesOf(ms) == []
    ensures ms != [] ==> |FilesOf(ms)| == (if IsFileMember(ms[0]) then 1 else 0) + |FilesOf(ms[1..])|
  {
  }

  lemma AddedApart(files: seq<Entry>, m: Member, offset: nat)
    ensures Added(files, m, offset) == files + Added([], m, offset)
    ensures |Added([], m, offset)| == if IsFileMember(m) then 1 else 0
  {
    hide FullPath;
  }

  /** Entry e reads back member m. */
  ghost predicate ReadsBack(image: seq<byte>, e: Entry, m: Member) {
    e.path == FullPath(m) && e.size == |m.data| && e.start + e.size <= |image|
      && image[e.start..e.start + e.size] == m.data
  }

  lemma {:induction false} EntriesReadBack(before: seq<byte>, ms: seq<Member>, rest: seq<byte>, i: nat)
    requires AllEncodable(ms) && i < |FilesOf(ms)|
    ensures ReadsBack(before + Archive(ms) + rest, Entries(ms, |before|)[i], FilesOf(ms)[i])
    decreases |ms|
  {
    hide ReadMember, Encoded, Encodable, FullPath, Padded, AllZero, Entries, ReadsBack;
    var m, code := ms[0], Encoded(ms[0]);
    var tail := Archive(ms[1..]) + rest;
    var image := before + Archive(ms) + rest;
    assert image == before + code + tail;
    NextEntries(ms, |before|, []);
    assert [] + Entries(ms, |before|) == Entries(ms, |before|);
    if IsFileMember(m) && i == 0 {
      FirstReadsBack(before, m, tail);
    } else {
      assert image == (before + code) + Archive(ms[1..]) + rest;
      EntriesReadBack(before + code, ms[1..], rest, if IsFileMember(m) then i - 1 else i);
    }
  }

  lemma FirstReadsBack(before: seq<byte>, m: Member, after: seq<byte>)
    requires Encodable(m) && IsFileMember(m)
    ensures ReadsBack(before + Encoded(m) + after, Entry(FullPath(m), |before| + BLOCK, |m.data|), m)
  {
    hide ReadMember, Encoded, Encodable, FullPath, AllZero;
    ReadEncoded(before, m, after, []);
  }

  lemma ArchiveLong(ms: seq<Member>)
    requires AllEncodable(ms) && ms != []
    ensures |Archive(ms)| >= BLOCK
  {
    hide Encodable;
  }

  /**
   * Parsing an encoded archive with 1 to 32 regular files among its members yields those files in order:
   * the same paths, the same sizes and the same bytes.
   */
  lemma RoundTrip(ms: seq<Member>, rest: seq<byte>)
    requires AllEncodable(ms) && Ends(rest) && 1 <= |FilesOf(ms)| <= MAX_FILES
    ensures var image := Archive(ms) + rest;
      && Parse(image).Good? && |Parse(image).value| == |FilesOf(ms)|
      && forall i :: 0 <= i < |FilesOf(ms)| ==> ReadsBack(image, Parse(image).value[i], FilesOf(ms)[i])
  {
    hide ReadsBack, ParseFrom, Archive, Ends, Encodable, FullPath, Padded, FilesOf, Entries;
    var image := Archive(ms) + rest;
    assert image == [] + Archive(ms) + rest;
    ParseArchive([], ms, rest, []);
    assert [] + Entries(ms, 0) == Entries(ms, 0);
    FilesUnfold(ms);
    ArchiveLong(ms);
    forall i | 0 <= i < |FilesOf(ms)| ensures ReadsBack(image, Entries(ms, 0)[i], FilesOf(ms)[i]) {
      EntriesReadBack([], ms, rest, i);
    }
  }

  /** A regular file finds no room in a full table, whatever it is called. */
  lemma FullTable(image: seq<byte>, offset: nat, files: seq<Entry>)
    requires offset + BLOCK <= |image| && |files| >= MAX_FILES
    requires ReadMember(image, offset, []).Good? && |ReadMember(image, offset, []).value.0| == 1
    ensures ReadMember(image, offset, files) == Bad(NoMem)
  {
    hide Octal, Normalized, Padded;
  }

  lemma {:induction false} ParseOverflow(before: seq<byte>, ms: seq<Member>, rest: seq<byte>, files: seq<Entry>)
    requires AllEncodable(ms) && |files| <= MAX_FILES < |files| + |FilesOf(ms)|
    ensures ParseFrom(before + Archive(ms) + rest, |before|, files) == Bad(NoMem)
    decreases |ms|
  {
    hide ReadMember, Encoded, Encodable, FullPath, Padded, AllZero, ParseFrom, Added, FilesOf;
    FilesUnfold(ms);
    var m, code := ms[0], Encoded(ms[0]);
    var tail := Archive(ms[1..]) + rest;
    var image := before + Archive(ms) + rest;
    assert image == before + code + tail;
    ReadEncoded(before, m, tail, []);
    AddedApart(files, m, |before|);
    if IsFileMember(m) && |files| == MAX_FILES {
      FullTable(image, |before|, files);
      RefusedMember(image, |before|, files);
    } else {
      ReadEncoded(before, m, tail, files);
      var files' := Added(files, m, |before|);
      NextMember(image, |before|, files, files', |before + code|);
      ParseOverflow(before + code, ms[1..], rest, files');
      assert image == (before + code) + Archive(ms[1..]) + rest;
    }
  }

  lemma RefusedMember(image: seq<byte>, offset: nat, files: seq<Entry>)
    requires offset + BLOCK <= |image| && !AllZero(image[offset..offset + BLOCK])
    requires ReadMember(image, offset, files) == Bad(NoMem)
    ensures ParseFrom(image, offset, files) == Bad(NoMem)
  {
    hide ReadMember, AllZero;
  }

  /** Exactly how parsing an encoded archive ends: without regular files, or with more than 32, it fails. */
  lemma ArchiveOutcome(ms: seq<Member>, rest: seq<byte>)
    requires AllEncodable(ms) && Ends(rest) && |Archive(ms) + rest| >= 512
    ensures var n, r := |FilesOf(ms)|, Parse(Archive(ms) + rest);
      && (r.Good? <==> 1 <= n <= 32)
      && (n == 0 ==> r == Bad(NoEnt)) && (n > 32 ==> r == Bad(NoMem))
  {
    hide ParseFrom, Archive, Ends, Encodable, FilesOf, Entries, ReadsBack;
    var image := Archive(ms) + rest;
    assert image == [] + Archive(ms) + rest;
    if |FilesOf(ms)| > 32 {
      ParseOverflow([], ms, rest, []);
    } else {
      ParseArchive([], ms, rest, []);
      assert [] + Entries(ms, 0) == Entries(ms, 0);
    }
  }
}
