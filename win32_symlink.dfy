/**
  The data handling around the kernel32 symbolic-link calls
  (src/win32-symlink.ts): the wide-string buffers handed to the `W`
  functions, the decoding of a file-attribute word, and the flags and
  return-code check of `CreateSymbolicLinkW`. The native calls themselves
  act on the abstract filesystem of module Fs.
 */
module Win32Symlink {
  import opened Common

  newtype uint8 = x: int | 0 <= x < 0x100
  /** One UTF-16 code unit; a JavaScript string is a sequence of these. */
  newtype uint16 = x: int | 0 <= x < 0x1_0000

  const FILE_ATTRIBUTE_REPARSE_POINT: bv32 := 0x400

  const SYMBOLIC_LINK_FLAG_FILE: bv32 := 0x0
  const SYMBOLIC_LINK_FLAG_DIRECTORY: bv32 := 0x1
  const SYMBOLIC_LINK_FLAG_ALLOW_UNPRIVILEGED_CREATE: bv32 := 0x2

  // ---------------------------------------------------------------------
  // Wide strings
  // ---------------------------------------------------------------------

  function LowByte(u: uint16): uint8 { (u as int % 0x100) as uint8 }
  function HighByte(u: uint16): uint8 { (u as int / 0x100) as uint8 }
  function Unit(lo: uint8, hi: uint8): uint16 { (lo as int + 0x100 * hi as int) as uint16 }

  /** `Buffer.from(s, 'ucs2')`: each code unit as two bytes, low byte first. */
  function Ucs2(s: seq<uint16>): (b: seq<uint8>)
    ensures |b| == 2 * |s|
    ensures forall i :: 0 <= i < |s| ==> b[2 * i] == LowByte(s[i]) && b[2 * i + 1] == HighByte(s[i])
  {
    if s == [] then []
    else
      var rest := Ucs2(s[1..]);
      assert forall i :: 1 <= i < |s| ==> s[i] == s[1..][i - 1];
      [LowByte(s[0]), HighByte(s[0])] + rest
  }

  /** Reads little-endian code units back; a trailing odd byte is ignored. */
  function DecodeUcs2(b: seq<uint8>): (s: seq<uint16>)
    ensures |s| == |b| / 2
  {
    if |b| < 2 then [] else [Unit(b[0], b[1])] + DecodeUcs2(b[2..])
  }

  lemma {:induction false} DecodeUcs2OfUcs2(s: seq<uint16>)
    ensures DecodeUcs2(Ucs2(s)) == s
  {
    if s != [] {
      var b := Ucs2(s);
      assert b[..2] == [LowByte(s[0]), HighByte(s[0])];
      assert b[2..] == Ucs2(s[1..]);
      DecodeUcs2OfUcs2(s[1..]);
    }
  }

  lemma {:induction false} Ucs2OfDecodeUcs2(b: seq<uint8>)
    requires |b| % 2 == 0
    ensures Ucs2(DecodeUcs2(b)) == b
  {
    if |b| >= 2 {
      var s := DecodeUcs2(b);
      assert s[0] == Unit(b[0], b[1]) && s[1..] == DecodeUcs2(b[2..]);
      Ucs2OfDecodeUcs2(b[2..]);
      assert Ucs2(s) == [b[0], b[1]] + b[2..];
    }
  }

  /**
    `TEXT(str)`: a zero-filled buffer of (length + 1) * 4 bytes into whose
    start the UCS-2 bytes of `str` are copied, so it is always NUL-terminated.
   */
  method Text(s: seq<uint16>) returns (buf: array<uint8>)
    ensures buf.Length == 4 * (|s| + 1)
    ensures forall i :: 0 <= i < |s| ==> buf[2 * i] == LowByte(s[i]) && buf[2 * i + 1] == HighByte(s[i])
    ensures forall i :: 2 * |s| <= i < buf.Length ==> buf[i] == 0
    ensures DecodeUcs2(buf[..2 * |s|]) == s
  {
    var encoded := Ucs2(s);
    buf := new uint8[4 * (|s| + 1)](_ => 0);
    // Buffer.prototype.copy moves min(|encoded|, buf.Length) == |encoded| bytes
    var i := 0;
    while i < |encoded|
      invariant 0 <= i <= |encoded|
      invariant buf[..i] == encoded[..i]
      invariant forall k :: i <= k < buf.Length ==> buf[k] == 0
    {
      buf[i] := encoded[i];
      i := i + 1;
    }
    assert buf[..2 * |s|] == encoded;
    DecodeUcs2OfUcs2(s);
  }

  // ---------------------------------------------------------------------
  // Attribute words and flags
  // ---------------------------------------------------------------------

  /** The 32 bits JavaScript's `&` operates on (ToInt32, two's complement). */
  function Bits(x: int32): bv32
  {
    (if x < 0 then x as int + 0x1_0000_0000 else x as int) as bv32
  }

  predicate HasFlag(x: int32, flag: bv32)
  {
    Bits(x) & flag != 0
  }

  /**
    `isPathSymbolicLink` given the word `GetFileAttributesW` returned and the
    code `GetLastError` would report: -1 throws, anything else is a link
    exactly when the reparse-point bit is set.
   */
  function IsPathSymbolicLink(attributes: int32, lastError: int32): (r: Result<bool>)
    ensures r.Failure? <==> attributes == -1
    ensures r.Failure? ==> r.error == AttributesFailed(lastError)
    ensures r.Success? ==> (r.value <==> HasFlag(attributes, FILE_ATTRIBUTE_REPARSE_POINT))
  {
    if attributes == -1 then Failure(AttributesFailed(lastError))
    else Success(HasFlag(attributes, FILE_ATTRIBUTE_REPARSE_POINT))
  }

  /**
    The error sentinel itself carries the reparse-point bit, so testing the
    bit before the sentinel would report every missing path as a link.
   */
  lemma ErrorSentinelHasReparseBit()
    ensures HasFlag(-1, FILE_ATTRIBUTE_REPARSE_POINT)
  {
  }

  /** The flags `createSymbolicLink` passes for a directory or a file target. */
  function LinkFlags(targetIsDirectory: bool): (flags: int32)
    ensures HasFlag(flags, SYMBOLIC_LINK_FLAG_ALLOW_UNPRIVILEGED_CREATE)
    ensures HasFlag(flags, SYMBOLIC_LINK_FLAG_DIRECTORY) <==> targetIsDirectory
    ensures Bits(flags) & !(SYMBOLIC_LINK_FLAG_DIRECTORY | SYMBOLIC_LINK_FLAG_ALLOW_UNPRIVILEGED_CREATE) == 0
  {
    if targetIsDirectory then
      (SYMBOLIC_LINK_FLAG_DIRECTORY | SYMBOLIC_LINK_FLAG_ALLOW_UNPRIVILEGED_CREATE) as int as int32
    else
      (SYMBOLIC_LINK_FLAG_FILE | SYMBOLIC_LINK_FLAG_ALLOW_UNPRIVILEGED_CREATE) as int as int32
  }

  /** `CreateSymbolicLinkW` returns 0 on failure; anything else is success. */
  function CheckCreateResult(ret: int32, lastError: int32): (r: Outcome)
    ensures r.Pass? <==> ret != 0
    ensures r.Fail? ==> r.error == CreateLinkFailed(lastError)
  {
    if ret == 0 then Fail(CreateLinkFailed(lastError)) else Pass
  }
}
