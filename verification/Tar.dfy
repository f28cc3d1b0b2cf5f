/** Reading a ustar image: octal fields, path normalisation and the member loop. */
module Tar {
  import opened KernelTypes

  type byte = x: nat | x < 256

  const BLOCK: nat := 512
  const MAX_FILES: nat := 32
  const MAX_PATH: nat := 128
  const SLASH: byte := 47
  const DOT: byte := 46
  const SPACE: byte := 32
  const ZERO: byte := 48
  const SEVEN: byte := 55

  type Path = seq<byte>

  // ----- fields -------------------------------------------------------------------------------------

  predicate IsOctal(c: byte) { ZERO <= c <= SEVEN }

  /** The text of a numeric field: everything before the first NUL or space. */
  function FieldText(field: seq<byte>): (r: seq<byte>)
    ensures |r| <= |field| && r == field[..|r|] && forall i :: 0 <= i < |r| ==> r[i] != 0 && r[i] != SPACE
    ensures |r| < |field| ==> field[|r|] == 0 || field[|r|] == SPACE
  {
    if field == [] || field[0] == 0 || field[0] == SPACE then [] else [field[0]] + FieldText(field[1..])
  }

  /** The number written by octal digits, most significant first. */
  function OctalValue(digits: seq<byte>): nat {
    if digits == [] then 0
    else
      var last := digits[|digits| - 1];
      8 * OctalValue(digits[..|digits| - 1]) + (if last >= ZERO then last - ZERO else 0)
  }

  predicate AllOctal(s: seq<byte>) { forall i :: 0 <= i < |s| ==> IsOctal(s[i]) }

  /** A numeric field: its text must be octal digits, at least one. */
  function Octal(field: seq<byte>): Result<nat> {
    var text := FieldText(field);
    if text == [] || !AllOctal(text) then Bad(Inval) else Good(OctalValue(text))
  }

  /** The digit loop. */
  method ParseOctal(field: seq<byte>) returns (r: Result<nat>)
    ensures r == Octal(field)
  {
    var value, seen := 0, 0;
    ghost var text := FieldText(field);
    for i := 0 to |field|
      invariant seen == i <= |text| && AllOctal(text[..i]) && value == OctalValue(text[..i])
    {
      var c := field[i];
      if c == 0 || c == SPACE {
        break;
      }
      if c < ZERO || c > SEVEN {
        assert text[i] == c;
        return Bad(Inval);
      }
      assert text[..i + 1][..i] == text[..i];
      value := 8 * value + (c - ZERO);
      seen := i + 1;
    }
    assert text[..seen] == text;
    if seen == 0 {
      return Bad(Inval);
    }
    return Good(value);
  }

  /** The text of a character field: everything before the first NUL. */
  function CText(field: seq<byte>): (r: seq<byte>)
    ensures |r| <= |field| && r == field[..|r|] && forall i :: 0 <= i < |r| ==> r[i] != 0
    ensures |r| < |field| ==> field[|r|] == 0
  {
    if field == [] || field[0] == 0 then [] else [field[0]] + CText(field[1..])
  }

  // ----- headers ----------------------------------------------------------------------------------------

  predicate IsHeader(h: seq<byte>) { |h| == BLOCK }

  function NameField(h: seq<byte>): seq<byte>
    requires IsHeader(h)
  {
    h[..100]
  }

  function SizeField(h: seq<byte>): seq<byte>
    requires IsHeader(h)
  {
    h[124..136]
  }

  function PrefixField(h: seq<byte>): seq<byte>
    requires IsHeader(h)
  {
    h[345..500]
  }

  /** Typeflag '0' or NUL marks a regular file. */
  predicate IsFile(h: seq<byte>)
    requires IsHeader(h)
  {
    h[156] == ZERO || h[156] == 0
  }

  predicate AllZero(h: seq<byte>) { forall i :: 0 <= i < |h| ==> h[i] == 0 }

  /** The name without a leading "./". */
  function NameText(name: seq<byte>): seq<byte>
    requires |name| >= 2
  {
    if name[0] == DOT && name[1] == SLASH then CText(name[2..]) else CText(name)
  }

  function Normalized(prefix: seq<byte>, name: seq<byte>): (r: Result<Path>)
    requires |name| >= 2
    ensures r.Good? ==> 2 <= |r.value| < MAX_PATH && r.value[0] == SLASH
    ensures r.Good? ==> forall i :: 0 <= i < |r.value| ==> r.value[i] != 0
  {
    var p, n := CText(prefix), NameText(name);
    var root: Path := [SLASH];
    if |p| > 0 && 1 + |p| >= MAX_PATH then Bad(Bounds)
    else
      var base := root + p;
      if |base| > 1 && |base| + 1 >= MAX_PATH then Bad(Bounds)
      else
        var dir := if |base| > 1 then base + [SLASH] else base;
        if |n| > 0 && |dir| + |n| >= MAX_PATH then Bad(Bounds)
        else if |dir + n| <= 1 then Bad(NoEnt)
        else Good(dir + n)
  }

  // ----- the member loop ------------------------------------------------------------------------------------

  /** A file's bytes are the size bytes of the image from start on. */
  datatype Entry = Entry(path: Path, start: nat, size: nat)

  function Padded(size: nat): (r: nat)
    ensures size <= r < size + BLOCK && r % BLOCK == 0
  {
    (size + BLOCK - 1) / BLOCK * BLOCK
  }

  /** One header at offset: the entries with this member added, and where the next header is. */
  function ReadMember(image: seq<byte>, offset: nat, files: seq<Entry>): (r: Result<(seq<Entry>, nat)>)
    requires offset + BLOCK <= |image|
    ensures r.Good? ==> offset + BLOCK <= r.value.1 <= |image|
  {
    var h, data := image[offset..offset + BLOCK], offset + BLOCK;
    match Octal(SizeField(h))
    case Bad(s) => Bad(s)
    case Good(size) =>
      if Padded(size) > |image| - data then Bad(Bounds)
      else if !IsFile(h) then Good((files, data + Padded(size)))
      else
        match Normalized(PrefixField(h), NameField(h))
        case Bad(s) => Bad(s)
        case Good(path) =>
          if |files| >= MAX_FILES then Bad(NoMem)
          else Good((files + [Entry(path, data, size)], data + Padded(size)))
  }

  function ParseFrom(image: seq<byte>, offset: nat, files: seq<Entry>): Result<seq<Entry>>
    requires offset <= |image|
    decreases |image| - offset
  {
    if offset + BLOCK > |image| || AllZero(image[offset..offset + BLOCK]) then
      (if files == [] then Bad(NoEnt) else Good(files))
    else
      match ReadMember(image, offset, files)
      case Bad(s) => Bad(s)
      case Good((files', next)) => ParseFrom(image, next, files')
  }

  function Parse(image: seq<byte>): Result<seq<Entry>> {
    if |image| < BLOCK then Bad(Inval) else ParseFrom(image, 0, [])
  }

  method MemoryIsZero(bytes: seq<byte>) returns (zero: bool)
    ensures zero <==> AllZero(bytes)
  {
    for i := 0 to |bytes|
      invariant AllZero(bytes[..i])
    {
      if bytes[i] != 0 {
        return false;
      }
    }
    assert bytes[..|bytes|] == bytes;
    return true;
  }

  /** One header: its member, if a regular file, goes into the next slot of the table. */
  method TakeMember(image: seq<byte>, offset: nat, table: array<Entry>, count: nat)
    returns (s: Status, count': nat, next: nat)
    requires offset + BLOCK <= |image| && table.Length == MAX_FILES && count <= MAX_FILES
    modifies table
    ensures s == Ok ==>
      count' <= MAX_FILES && ReadMember(image, offset, old(table[..count])) == Good((table[..count'], next))
    ensures s != Ok ==> ReadMember(image, offset, old(table[..count])) == Bad(s)
  {
    hide Octal, Padded, SizeField, PrefixField, IsFile, CText, NameText;
    var header, data := image[offset..offset + BLOCK], offset + BLOCK;
    var size := ParseOctal(SizeField(header));
    OctalError(SizeField(header));
    if size.Bad? {
      return size.error, count, 0;
    }
    var padded := Padded(size.value);
    if padded > |image| - data {
      return Bounds, count, 0;
    }
    count' := count;
    if IsFile(header) {
      var path := Normalized(PrefixField(header), NameField(header));
      if path.Bad? {
        return path.error, count, 0;
      }
      if count >= MAX_FILES {
        return NoMem, count, 0;
      }
      table[count] := Entry(path.value, data, size.value);
      count' := count + 1;
      assert table[..count'] == old(table[..count]) + [Entry(path.value, data, size.value)];
    }
    return Ok, count', data + padded;
  }

  lemma OctalError(field: seq<byte>)
    ensures Octal(field).Bad? ==> Octal(field).error == Inval
  {
  }

  /** The loop over headers; it fills the file table in place and stops at a zero block or a short rest. */
  method ParseTarImage(image: seq<byte>, table: array<Entry>) returns (s: Status, count: nat)
    requires table.Length == MAX_FILES
    modifies table
    ensures s == Ok ==> count <= MAX_FILES && Parse(image) == Good(table[..count])
    ensures s != Ok ==> Parse(image) == Bad(s)
  {
    hide ReadMember, AllZero;
    count := 0;
    if |image| < BLOCK {
      return Inval, 0;
    }
    var offset := 0;
    while offset + BLOCK <= |image|
      invariant offset <= |image| && count <= MAX_FILES
      invariant Parse(image) == ParseFrom(image, offset, table[..count])
    {
      var zero := MemoryIsZero(image[offset..offset + BLOCK]);
      if zero {
        break;
      }
      s, count, offset := TakeMember(image, offset, table, count);
      if s != Ok {
        return;
      }
    }
    if count == 0 {
      return NoEnt, 0;
    }
    return Ok, count;
  }
}
