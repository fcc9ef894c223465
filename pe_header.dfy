/** The fields of a Portable Executable's headers that the injector needs:
    the offset of the PE signature, stored at file offset 0x3C (section 3.1
    of the Microsoft PE/COFF Specification), and the four 32-bit words at
    0x28 past it: AddressOfEntryPoint, BaseOfCode, BaseOfData and ImageBase
    (sections 3.4.1 and 3.4.2). The file is given as its bytes, or as
    nothing when it cannot be opened. */
module PeHeaders {
  import opened Wrappers
  import opened Bytes

  /** `PE_HEADER_PTR_OFFSET`. */
  const PeHeaderPtrOffset: nat := 0x3C
  /** `ENTRY_POINT_ADDRESS_OFFSET`, counted from the PE signature. */
  const EntryPointAddressOffset: nat := 0x28

  datatype PeFields = PeFields(
    startAddress: u32,
    entryPoint: u32,
    codeBase: u32,
    dataBase: u32,
    imageBase: u32)

  /** The word `fread` gets at `position`, if four bytes are left there. */
  function WordAt(file: seq<byte>, position: nat): (r: Option<u32>)
    ensures r.Some? <==> position + 4 <= |file|
    ensures r.Some? ==> LE32(r.value) == file[position..position + 4]
  {
    if position + 4 <= |file| then
      EncodeDecode(file[position..position + 4]);
      Some(FromLE32(file[position..position + 4]))
    else None
  }

  /** Where the four fields start: the signature offset, read as the
      `long` the source casts it to, plus 0x28. */
  function FieldsPosition(startAddress: u32): int
  {
    Signed32(startAddress) + EntryPointAddressOffset
  }

  /** The file holds the signature offset and, at 0x28 past it, all four
      fields. */
  predicate Parsable(f: seq<byte>)
  {
    && PeHeaderPtrOffset + 4 <= |f|
    && var p := FieldsPosition(FromLE32(f[PeHeaderPtrOffset..PeHeaderPtrOffset + 4]));
       0 <= p && p + 16 <= |f|
  }

  /** The outcome of `PeHeader_Init` on a file. The seek to 0x3C cannot
      fail on an open file (seeking past the end is allowed; the read that
      follows fails instead). */
  function ParsePe(file: Option<seq<byte>>): (r: Result<PeFields>)
    ensures r.Err? && file.None? ==> r.error == CannotOpenFile
    ensures file.Some? && |file.value| < PeHeaderPtrOffset + 4 ==> r == Err(ShortRead)
    ensures file.Some? && PeHeaderPtrOffset + 4 <= |file.value| ==>
              var p := FieldsPosition(FromLE32(file.value[PeHeaderPtrOffset..PeHeaderPtrOffset + 4]));
              && (p < 0 ==> r == Err(CannotSeek))
              && (0 <= p && p + 16 > |file.value| ==> r == Err(ShortRead))
    ensures r.Ok? <==> file.Some? && Parsable(file.value)
    ensures r.Ok? ==>
              && file.Some? && Parsable(file.value)
              && r.value.startAddress == FromLE32(file.value[PeHeaderPtrOffset..PeHeaderPtrOffset + 4])
              && LE32(r.value.startAddress) == file.value[PeHeaderPtrOffset..PeHeaderPtrOffset + 4]
              && var f, p := file.value, FieldsPosition(r.value.startAddress);
                 && LE32(r.value.entryPoint) == f[p..p + 4]
                 && LE32(r.value.codeBase) == f[p + 4..p + 8]
                 && LE32(r.value.dataBase) == f[p + 8..p + 12]
                 && LE32(r.value.imageBase) == f[p + 12..p + 16]
  {
    if file.None? then Err(CannotOpenFile)
    else
      var f := file.value;
      match WordAt(f, PeHeaderPtrOffset)
      case None => Err(ShortRead)
      case Some(start) =>
        var p := FieldsPosition(start);
        if p < 0 then Err(CannotSeek)
        else if p + 16 > |f| then Err(ShortRead)
        else
          var entry, code, data, image := WordAt(f, p), WordAt(f, p + 4), WordAt(f, p + 8), WordAt(f, p + 12);
          Ok(PeFields(start, entry.value, code.value, data.value, image.value))
  }

  /** A file whose word at 0x3C is `fields.startAddress` and whose four
      words from there plus 0x28 are the other fields; `prefix` and
      `padding` fill the bytes before and between them. */
  function Image(fields: PeFields, prefix: seq<byte>, padding: seq<byte>): (f: seq<byte>)
    requires |prefix| == PeHeaderPtrOffset
  {
    prefix + LE32(fields.startAddress) + padding
    + LE32(fields.entryPoint) + LE32(fields.codeBase) + LE32(fields.dataBase) + LE32(fields.imageBase)
  }

  /** Reading back an image gives its fields, when the signature offset
      points where the image puts them. */
  lemma ParseImage(fields: PeFields, prefix: seq<byte>, padding: seq<byte>)
    requires |prefix| == PeHeaderPtrOffset
    requires FieldsPosition(fields.startAddress) == PeHeaderPtrOffset + 4 + |padding|
    ensures ParsePe(Some(Image(fields, prefix, padding))) == Ok(fields)
  {
    var f := Image(fields, prefix, padding);
    var p := PeHeaderPtrOffset + 4 + |padding|;
    ImageLayout(fields, prefix, padding);
    DecodeEncode(fields.startAddress);
    DecodeEncode(fields.entryPoint);
    DecodeEncode(fields.codeBase);
    DecodeEncode(fields.dataBase);
    DecodeEncode(fields.imageBase);
    assert WordAt(f, PeHeaderPtrOffset) == Some(fields.startAddress);
    assert WordAt(f, p) == Some(fields.entryPoint);
    assert WordAt(f, p + 4) == Some(fields.codeBase);
    assert WordAt(f, p + 8) == Some(fields.dataBase);
    assert WordAt(f, p + 12) == Some(fields.imageBase);
  }

  lemma ImageLayout(fields: PeFields, prefix: seq<byte>, padding: seq<byte>)
    requires |prefix| == PeHeaderPtrOffset
    ensures var f := Image(fields, prefix, padding);
            var p := PeHeaderPtrOffset + 4 + |padding|;
            && |f| == p + 16
            && f[PeHeaderPtrOffset..PeHeaderPtrOffset + 4] == LE32(fields.startAddress)
            && f[p..p + 4] == LE32(fields.entryPoint)
            && f[p + 4..p + 8] == LE32(fields.codeBase)
            && f[p + 8..p + 12] == LE32(fields.dataBase)
            && f[p + 12..p + 16] == LE32(fields.imageBase)
  {
  }

  /** A signature offset that is negative as a `long` makes the second seek
      fail, whatever the rest of the file holds. */
  lemma NegativeStartCannotSeek(f: seq<byte>)
    requires PeHeaderPtrOffset + 4 <= |f|
    requires FromLE32(f[PeHeaderPtrOffset..PeHeaderPtrOffset + 4]) >= 0x8000_0000
    requires FromLE32(f[PeHeaderPtrOffset..PeHeaderPtrOffset + 4]) < 0x1_0000_0000 - EntryPointAddressOffset
    ensures ParsePe(Some(f)) == Err(CannotSeek)
  {
  }

  /** `struct PeHeader`: the path the header was read from and the fields. */
  class PeHeader {
    var filePath: seq<char>
    var filePathLen: nat
    var startAddress: u32
    var entryPoint: u32
    var codeBase: u32
    var dataBase: u32
    var imageBase: u32

    function Fields(): (f: PeFields)
      reads this
    {
      PeFields(startAddress, entryPoint, codeBase, dataBase, imageBase)
    }

    /** The state `PeHeader_Deinit` leaves. */
    predicate Cleared()
      reads this
    {
      filePath == [] && filePathLen == 0 && Fields() == PeFields(0, 0, 0, 0, 0)
    }

    constructor ()
      ensures Cleared()
    {
      filePath := [];
      filePathLen := 0;
      startAddress, entryPoint, codeBase, dataBase, imageBase := 0, 0, 0, 0, 0;
    }

    /** `fread` of one word at the stream position, which it advances. */
    static method Read(file: seq<byte>, position: nat) returns (word: Option<u32>, next: nat)
      ensures word == WordAt(file, position)
      ensures word.Some? ==> next == position + 4
    {
      word := WordAt(file, position);
      next := if word.Some? then position + 4 else position;
    }

    /** `PeHeader_Init`: stores a copy of the path and its length, then
        reads the signature offset at 0x3C, seeks to 0x28 past it and reads
        the four fields one after another. Each failure is fatal. */
    method Init(filePath: seq<char>, filePathLen: nat, file: Option<seq<byte>>) returns (o: Outcome)
      modifies this
      ensures this.filePath == filePath && this.filePathLen == filePathLen
      ensures o.Pass? <==> ParsePe(file).Ok?
      ensures o.Pass? ==> Fields() == ParsePe(file).value
      ensures o.Fail? ==> o.error == ParsePe(file).error
    {
      this.filePath := filePath;
      this.filePathLen := filePathLen;
      if file.None? {
        return Fail(CannotOpenFile);
      }
      var bytes := file.value;
      var position := PeHeaderPtrOffset;
      var word;
      word, position := Read(bytes, position);
      if word.None? {
        return Fail(ShortRead);
      }
      startAddress := word.value;
      if FieldsPosition(startAddress) < 0 {
        return Fail(CannotSeek);
      }
      position := FieldsPosition(startAddress);
      word, position := Read(bytes, position);
      if word.None? {
        return Fail(ShortRead);
      }
      entryPoint := word.value;
      word, position := Read(bytes, position);
      if word.None? {
        return Fail(ShortRead);
      }
      codeBase := word.value;
      word, position := Read(bytes, position);
      if word.None? {
        return Fail(ShortRead);
      }
      dataBase := word.value;
      word, position := Read(bytes, position);
      if word.None? {
        return Fail(ShortRead);
      }
      imageBase := word.value;
      o := Pass;
    }

    /** `PeHeader_Deinit`: zeroes every field and releases the path. */
    method Deinit()
      modifies this
      ensures Cleared()
    {
      filePathLen := 0;
      startAddress, entryPoint, codeBase, dataBase, imageBase := 0, 0, 0, 0, 0;
      filePath := [];
    }
  }

  /** `PeHeader_GetHardDataAddress`: the data section's address once the
      image is loaded at its preferred base, `ImageBase + BaseOfData`. */
  function GetHardDataAddress(pe: PeFields): (r: u32)
    ensures Sub32(r, pe.imageBase) == pe.dataBase
  {
    AddSub32(pe.imageBase, pe.dataBase);
    Add32(pe.imageBase, pe.dataBase)
  }

  /** `PeHeader_GetHardEntryPointAddress`: the entry point's address once
      the image is loaded at its preferred base, `ImageBase +
      AddressOfEntryPoint`. */
  function GetHardEntryPointAddress(pe: PeFields): (r: u32)
    ensures Sub32(r, pe.imageBase) == pe.entryPoint
  {
    AddSub32(pe.imageBase, pe.entryPoint);
    Add32(pe.imageBase, pe.entryPoint)
  }
}
