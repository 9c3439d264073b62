/**
 * Thumbnail data in tray image files (s4lt/tray/thumbnails.py): the image
 * starts at the first PNG signature (section 5.2 of ISO/IEC 15948), or,
 * when there is none, at the first JPEG start-of-image marker followed by
 * the first byte of the next marker (FF D8 FF).
 */
module Thumbnails {
  import opened Bytes
  import opened Wrappers
  import opened Exceptions
  import opened Text
  import opened Paths
  import opened Files

  const PNG_MAGIC: seq<byte> := [0x89, 0x50, 0x4E, 0x47, 0x0D, 0x0A, 0x1A, 0x0A]
  const JFIF_MAGIC: seq<byte> := [0xFF, 0xD8, 0xFF]

  /** How many bytes get_image_format reads. */
  const SNIFF_SIZE: nat := 1024

  datatype ImageFormat = Png | Jpeg

  /** The format, and where the image starts, by the precedence both functions use; None when neither signature occurs. */
  function Locate(data: seq<byte>): (r: Option<(nat, ImageFormat)>)
    ensures r.Some? && r.value.1 == Png <==> exists j :: OccursAt(data, PNG_MAGIC, j)
    ensures r.Some? && r.value.1 == Png ==>
      OccursAt(data, PNG_MAGIC, r.value.0) && forall j :: 0 <= j < r.value.0 ==> !OccursAt(data, PNG_MAGIC, j)
    ensures r.Some? && r.value.1 == Jpeg ==>
      OccursAt(data, JFIF_MAGIC, r.value.0) && forall j :: 0 <= j < r.value.0 ==> !OccursAt(data, JFIF_MAGIC, j)
    ensures r.None? <==> (forall j :: !OccursAt(data, PNG_MAGIC, j)) && (forall j :: !OccursAt(data, JFIF_MAGIC, j))
  {
    var p := FindSub(data, PNG_MAGIC);
    if p >= 0 then Some((p, Png))
    else
      var q := FindSub(data, JFIF_MAGIC);
      if q >= 0 then Some((q, Jpeg)) else None
  }

  /**
   * extract_thumbnail, given the file's contents or None when it cannot be
   * read: the data from the image signature on, with its format.
   */
  function ExtractThumbnail(file: Option<seq<byte>>): (r: Result<(seq<byte>, ImageFormat), Error>)
    ensures r.Failure? ==> r.error == ThumbnailError
    ensures r.Failure? <==> file.None? || Locate(file.value).None?
    ensures r.Success? ==>
      exists k :: 0 <= k <= |file.value| && r.value.0 == file.value[k..] &&
        (r.value.1 == Png ==> OccursAt(r.value.0, PNG_MAGIC, 0)) &&
        (r.value.1 == Jpeg ==> OccursAt(r.value.0, JFIF_MAGIC, 0))
    ensures r.Success? ==> |r.value.0| <= |file.value| && Locate(file.value) == Some((|file.value| - |r.value.0|, r.value.1))
  {
    match file
    case None => Failure(ThumbnailError)
    case Some(data) =>
      match Locate(data)
      case None => Failure(ThumbnailError)
      case Some((k, fmt)) => Success((data[k..], fmt))
  }

  /** A PNG signature anywhere wins, even after a JPEG marker: the image is the data from the first one on. */
  lemma PngWins(data: seq<byte>, j: nat)
    requires OccursAt(data, PNG_MAGIC, j)
    ensures var r := ExtractThumbnail(Some(data));
      r.Success? && r.value.1 == Png &&
      exists k :: 0 <= k <= j && r.value.0 == data[k..] && forall i :: 0 <= i < k ==> !OccursAt(data, PNG_MAGIC, i)
  {
    var k := Locate(data).value.0;
    assert !(k > j);
  }

  /** With no PNG signature anywhere, the image is the data from the first JPEG marker on. */
  lemma JpegFallback(data: seq<byte>, j: nat)
    requires forall i :: !OccursAt(data, PNG_MAGIC, i)
    requires OccursAt(data, JFIF_MAGIC, j) && forall i :: 0 <= i < j ==> !OccursAt(data, JFIF_MAGIC, i)
    ensures ExtractThumbnail(Some(data)) == Success((data[j..], Jpeg))
  {
    var l := Locate(data);
    assert l.Some? && l.value.1 == Jpeg;
    assert !(l.value.0 < j);
    assert !(l.value.0 > j);
  }

  /** get_image_format, given the file's contents or None when it cannot be opened. */
  function GetImageFormat(file: Option<seq<byte>>): (r: Option<ImageFormat>)
  {
    match file
    case None => None
    case Some(data) =>
      var head := if |data| <= SNIFF_SIZE then data else data[..SNIFF_SIZE];
      match Locate(head)
      case None => None
      case Some((_, fmt)) => Some(fmt)
  }

  /** get_image_format decides as extract_thumbnail would on the first 1024 bytes. */
  lemma ImageFormatOfHead(file: Option<seq<byte>>)
    ensures var head := if file.None? then None else Some(file.value[..if |file.value| <= SNIFF_SIZE then |file.value| else SNIFF_SIZE]);
      var x := ExtractThumbnail(head);
      GetImageFormat(file) == if x.Success? then Some(x.value.1) else None
  {
    if file.Some? && |file.value| <= SNIFF_SIZE {
      assert file.value[..|file.value|] == file.value;
    }
  }

  /** Only the first 1024 bytes decide the format. */
  lemma ImageFormatIgnoresTail(a: seq<byte>, b: seq<byte>, rest: seq<byte>)
    requires |a| == SNIFF_SIZE
    ensures GetImageFormat(Some(a + b)) == GetImageFormat(Some(a + rest))
  {
    var hb := if |a + b| <= SNIFF_SIZE then a + b else (a + b)[..SNIFF_SIZE];
    var hr := if |a + rest| <= SNIFF_SIZE then a + rest else (a + rest)[..SNIFF_SIZE];
    assert hb == a by {
      if |b| == 0 { assert a + b == a; } else { assert (a + b)[..SNIFF_SIZE] == a; }
    }
    assert hr == a by {
      if |rest| == 0 { assert a + rest == a; } else { assert (a + rest)[..SNIFF_SIZE] == a; }
    }
  }

  // ------------------------------------------------------------ save_thumbnail

  /** The path save_thumbnail writes to: output_path, with its suffix forced to the format; ValueError for an empty name. */
  function SavePath(fmt: ImageFormat, outputPath: string): (r: Result<string, Error>)
    ensures r.Failure? ==> r.error == ValueError
  {
    var suffix := Lower(Suffix(Name(outputPath)));
    if fmt == Png && suffix != ".png" then
      (match WithSuffix(outputPath, ".png") case Some(p) => Success(p) case None => Failure(ValueError))
    else if fmt == Jpeg && suffix != ".jpg" && suffix != ".jpeg" then
      (match WithSuffix(outputPath, ".jpg") case Some(p) => Success(p) case None => Failure(ValueError))
    else Success(outputPath)
  }

  /**
   * The file written always carries the format's suffix: ".png" for PNG,
   * ".jpg" or ".jpeg" (in any letter case) for JPEG. A path that already
   * has one is kept as it is.
   */
  lemma SavePathSuffix(fmt: ImageFormat, outputPath: string)
    requires Name(outputPath) != []
    ensures SavePath(fmt, outputPath).Success?
    ensures var s := Lower(Suffix(Name(SavePath(fmt, outputPath).value)));
      (fmt == Png ==> s == ".png") && (fmt == Jpeg ==> s == ".jpg" || s == ".jpeg")
    ensures var s := Lower(Suffix(Name(outputPath)));
      (fmt == Png && s == ".png") || (fmt == Jpeg && (s == ".jpg" || s == ".jpeg")) ==>
        SavePath(fmt, outputPath) == Success(outputPath)
  {
    var s := Lower(Suffix(Name(outputPath)));
    if fmt == Png && s != ".png" {
      ForcedSuffix(outputPath, ".png");
    } else if fmt == Jpeg && s != ".jpg" && s != ".jpeg" {
      ForcedSuffix(outputPath, ".jpg");
    }
  }

  /** with_suffix(".png") or with_suffix(".jpg") gives a path with that suffix, already lower-case. */
  lemma ForcedSuffix(p: string, s: string)
    requires Name(p) != [] && (s == ".png" || s == ".jpg")
    ensures WithSuffix(p, s).Some? && Lower(Suffix(Name(WithSuffix(p, s).value))) == s
  {
    assert |s| == 4 && s[0] == '.' && IsLower(s[1]) && IsLower(s[2]) && IsLower(s[3]);
    LowerSuffixConstant(s);
    WithSuffixSuffix(p, s);
  }

  /** A suffix like ".png": a dot and three lower-case letters. */
  lemma LowerSuffixConstant(s: string)
    requires |s| == 4 && s[0] == '.' && IsLower(s[1]) && IsLower(s[2]) && IsLower(s[3])
    ensures RFind(s, '.') == 0 && '/' !in s && Lower(s) == s
  {
    assert forall i :: 1 <= i < |s| ==> IsLower(s[i]);
    assert Lower(s) == s;
  }

  /** save_thumbnail: extract the image from path and write it to the path with the format's suffix; returns the format. */
  method SaveThumbnail(fs: FileSystem, path: string, outputPath: string) returns (r: Result<ImageFormat, Error>)
    modifies fs
    ensures var x := ExtractThumbnail(if path in old(fs.files) then Some(old(fs.files)[path]) else None);
      (x.Failure? ==> r == Failure(x.error) && fs.files == old(fs.files)) &&
      (x.Success? && SavePath(x.value.1, outputPath).Failure? ==> r == Failure(ValueError) && fs.files == old(fs.files)) &&
      (x.Success? && SavePath(x.value.1, outputPath).Success? ==>
        r == Success(x.value.1) && fs.files == old(fs.files)[SavePath(x.value.1, outputPath).value := x.value.0])
  {
    var file := if path in fs.files then Some(fs.files[path]) else None;
    var x := ExtractThumbnail(file);
    if x.Failure? {
      return Failure(x.error);
    }
    var data, fmt := x.value.0, x.value.1;
    var target := SavePath(fmt, outputPath);
    if target.Failure? {
      return Failure(target.error);
    }
    fs.WriteFile(target.value, data);
    return Success(fmt);
  }
}
