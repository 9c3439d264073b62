/**
 * .trayitem metadata (s4lt/tray/trayitem.py): a u32 version in 1..100, a
 * name given as a u32 character count of at most 1000 and that many UTF-16LE
 * code units, then a u32 item type code; everything after it is ignored.
 */
module TrayItem {
  import opened Bytes
  import opened Wrappers
  import opened Exceptions
  import opened Files

  const ITEM_TYPE_HOUSEHOLD: nat := 1
  const ITEM_TYPE_LOT: nat := 2
  const ITEM_TYPE_ROOM: nat := 3
  const MAX_NAME_CHARS: nat := 1000
  const MIN_VERSION: nat := 1
  const MAX_VERSION: nat := 100

  /** str.encode("utf-16-le") and bytes.decode("utf-16-le"), None where decoding raises. */
  datatype Utf16 = Utf16(encode: string -> seq<byte>, decode: seq<byte> -> Option<string>)

  /** What the round trip needs of the codec: decoding an encoding gives the text back, and code units are two bytes. */
  ghost predicate Decodes(u: Utf16)
  {
    forall t :: u.decode(u.encode(t)) == Some(t) && |u.encode(t)| % 2 == 0
  }

  /** The fields parse_trayitem fills; the optional ones stay None and are not modelled. */
  datatype TrayItemMeta = TrayItemMeta(name: string, itemType: string, version: nat)

  /** ITEM_TYPE_NAMES.get(code, "unknown"). */
  function ItemTypeName(code: nat): (r: string)
    ensures r == "unknown" <==> code !in {ITEM_TYPE_HOUSEHOLD, ITEM_TYPE_LOT, ITEM_TYPE_ROOM}
  {
    if code == ITEM_TYPE_HOUSEHOLD then "household"
    else if code == ITEM_TYPE_LOT then "lot"
    else if code == ITEM_TYPE_ROOM then "room"
    else "unknown"
  }

  /** _read_utf16_string at pos: the string and the position after it, or None. */
  function Utf16StringAt(data: seq<byte>, pos: nat, u: Utf16): (r: Option<(string, nat)>)
    ensures r.Some? ==>
      pos + 4 <= |data| && U32At(data, pos) <= MAX_NAME_CHARS &&
      r.value.1 == pos + 4 + 2 * U32At(data, pos) <= |data| &&
      u.decode(data[pos + 4..r.value.1]) == Some(r.value.0)
    ensures r.None? <==>
      pos + 4 > |data| || U32At(data, pos) > MAX_NAME_CHARS || pos + 4 + 2 * U32At(data, pos) > |data| ||
      u.decode(data[pos + 4..pos + 4 + 2 * U32At(data, pos)]).None?
  {
    if pos + 4 > |data| then None
    else
      var count := U32At(data, pos);
      if count > MAX_NAME_CHARS || pos + 4 + 2 * count > |data| then None
      else
        match u.decode(data[pos + 4..pos + 4 + 2 * count])
        case None => None
        case Some(s) => Some((s, pos + 4 + 2 * count))
  }

  /** _parse_trayitem_v14 with the cursor at pos. */
  function V14Spec(data: seq<byte>, pos: nat, u: Utf16): (r: Result<TrayItemMeta, Error>)
    ensures r.Failure? ==> r.error == TrayParseError
    ensures r.Success? ==> pos + 4 <= |data| && r.value.version == U32At(data, pos) && MIN_VERSION <= r.value.version <= MAX_VERSION
  {
    if pos + 4 > |data| then Failure(TrayParseError)
    else
      var version := U32At(data, pos);
      if version < MIN_VERSION || version > MAX_VERSION then Failure(TrayParseError)
      else
        match Utf16StringAt(data, pos + 4, u)
        case None => Failure(TrayParseError)
        case Some((name, next)) =>
          var code := if next + 4 <= |data| then U32At(data, next) else 0;
          Success(TrayItemMeta(name, ItemTypeName(code), version))
  }

  /** parse_trayitem, given the file's contents or None when it cannot be opened: every failure is a TrayParseError. */
  function ParseSpec(file: Option<seq<byte>>, u: Utf16): (r: Result<TrayItemMeta, Error>)
    ensures r.Failure? ==> r.error == TrayParseError
  {
    match file
    case None => Failure(TrayParseError)
    case Some(data) => V14Spec(data, 0, u)
  }

  // ------------------------------------------------------------ the stream parser

  /** _read_utf16_string: reads the count, then the code units, from the cursor on. */
  method ReadUtf16String(f: BinaryFile, u: Utf16) returns (r: Option<string>)
    requires !f.closed
    modifies f`pos
    ensures var x := Utf16StringAt(f.data, old(f.pos), u);
      (r.None? <==> x.None?) && (x.Some? ==> r == Some(x.value.0) && f.pos == x.value.1)
  {
    ghost var start := f.pos;
    var lengthData := f.Read(4);
    if |lengthData| < 4 {
      return None;
    }
    var charCount := LE(lengthData);
    if charCount > MAX_NAME_CHARS {
      return None;
    }
    var stringData := f.Read(charCount * 2);
    if |stringData| < charCount * 2 {
      return None;
    }
    r := u.decode(stringData);
  }

  /** _parse_trayitem_v14: the version, then the name, then the type code or 0 when it is missing. */
  method ParseV14(f: BinaryFile, u: Utf16) returns (r: Result<TrayItemMeta, Error>)
    requires !f.closed
    modifies f`pos
    ensures r == V14Spec(f.data, old(f.pos), u)
  {
    var versionData := f.Read(4);
    if |versionData| < 4 {
      return Failure(TrayParseError);
    }
    var version := LE(versionData);
    if version < MIN_VERSION || version > MAX_VERSION {
      return Failure(TrayParseError);
    }
    var name := ReadUtf16String(f, u);
    if name.None? {
      return Failure(TrayParseError);
    }
    var typeData := f.Read(4);
    var code := if |typeData| < 4 then 0 else LE(typeData);
    return Success(TrayItemMeta(name.value, ItemTypeName(code), version));
  }

  /** parse_trayitem: open the file, parse it, close it. */
  method ParseTrayitem(file: Option<seq<byte>>, u: Utf16) returns (r: Result<TrayItemMeta, Error>)
    ensures r == ParseSpec(file, u)
  {
    if file.None? {
      return Failure(TrayParseError);
    }
    var f := new BinaryFile(file.value);
    r := ParseV14(f, u);
    f.Close();
  }

  // ------------------------------------------------------------ properties

  /** Fewer than four bytes, or a version outside 1..100, is a TrayParseError. */
  lemma BadVersionRejected(data: seq<byte>, u: Utf16)
    requires |data| < 4 || U32At(data + [0, 0, 0, 0], 0) < MIN_VERSION || U32At(data + [0, 0, 0, 0], 0) > MAX_VERSION
    ensures V14Spec(data, 0, u) == Failure(TrayParseError)
  {
    if |data| >= 4 {
      assert (data + [0, 0, 0, 0])[0..4] == data[0..4];
    }
  }

  /** A name longer than 1000 characters, or one the file ends inside, or that does not decode, is a TrayParseError. */
  lemma BadNameRejected(data: seq<byte>, u: Utf16)
    requires 4 <= |data| && MIN_VERSION <= U32At(data, 0) <= MAX_VERSION
    requires Utf16StringAt(data, 4, u).None?
    ensures V14Spec(data, 0, u) == Failure(TrayParseError)
  {
  }

  /** The bytes a fixture is made of: version, character count, the encoded name, the type code. */
  function ItemBytes(version: nat, nameBytes: seq<byte>, code: nat): seq<byte>
  {
    Enc(version, 4) + Enc(|nameBytes| / 2, 4) + nameBytes + Enc(code, 4)
  }

  /**
   * A file laid out as the test fixture builds it parses back to its name,
   * type and version, whatever follows the type code.
   */
  lemma FixtureRoundTrip(version: nat, name: string, code: nat, tail: seq<byte>, u: Utf16)
    requires Decodes(u)
    requires MIN_VERSION <= version <= MAX_VERSION && code < U32_LIMIT
    requires |u.encode(name)| <= 2 * MAX_NAME_CHARS
    ensures V14Spec(ItemBytes(version, u.encode(name), code) + tail, 0, u) ==
      Success(TrayItemMeta(name, ItemTypeName(code), version))
  {
    var nb := u.encode(name);
    var count := |nb| / 2;
    assert 2 * count == |nb|;
    var data := ItemBytes(version, nb, code) + tail;
    var a, b := Enc(version, 4), Enc(count, 4);
    assert data == [] + a + (b + nb + Enc(code, 4) + tail);
    U32AtEnc([], version, b + nb + Enc(code, 4) + tail);
    assert data == a + b + (nb + Enc(code, 4) + tail);
    U32AtEnc(a, count, nb + Enc(code, 4) + tail);
    assert data == (a + b) + nb + (Enc(code, 4) + tail);
    MidOf(a + b, nb, Enc(code, 4) + tail);
    assert data == (a + b + nb) + Enc(code, 4) + tail;
    U32AtEnc(a + b + nb, code, tail);
  }

  /** With the file ending right after the name, the type is "unknown". */
  lemma MissingTypeIsUnknown(data: seq<byte>, u: Utf16)
    requires V14Spec(data, 0, u).Success?
    requires Utf16StringAt(data, 4, u).value.1 + 4 > |data|
    ensures V14Spec(data, 0, u).value.itemType == "unknown"
  {
  }
}
