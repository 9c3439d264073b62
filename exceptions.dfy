/**
 * The exception kinds the modelled code raises. The first four are the
 * DBPFError subclasses of s4lt/core/exceptions.py; the others are the editor
 * and tray errors and the Python built-in errors that escape the code as
 * written (struct.error, ValueError on a closed file, UnicodeDecodeError).
 */
module Exceptions {
  datatype Error =
    | InvalidMagicError        // file too short, or magic is not "DBPF"
    | UnsupportedVersionError  // major version is not 2
    | CorruptedIndexError      // index table truncated
    | CompressionError         // unknown codec or a stream that does not decode
    | StructError              // struct.pack of a value that does not fit its field, or unpack past the end
    | ValueError               // I/O on a closed file
    | STBLError                // string table malformed
    | UnicodeDecodeError       // string table text is not valid UTF-8
    | TrayParseError           // tray item metadata unreadable
    | ThumbnailError           // no PNG or JPEG signature in the data
}
