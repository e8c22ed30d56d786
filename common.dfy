/**
  Shared vocabulary of the channel manager model: the 32-bit integers the
  Win32 calls return, paths, and the failures every operation can raise.
  A thrown JavaScript `Error` (or a rejected promise) becomes `Failure`/`Fail`.
 */
module Common {

  /** A signed 32-bit integer, the return type of the kernel32 calls. */
  newtype int32 = x: int | -0x8000_0000 <= x < 0x8000_0000

  /** Windows paths as JavaScript strings. */
  type Path = string

  datatype Option<+T> = None | Some(value: T)

  /** Everything the modelled code can throw. */
  datatype Error =
    | AttributesFailed(lastError: int32)   // GetFileAttributesW returned -1
    | CreateLinkFailed(lastError: int32)   // CreateSymbolicLinkW returned 0
    | NoSuchPath(path: Path)               // ENOENT from statSync / readdirSync / rmdirSync
    | NotADirectory(path: Path)            // ENOTDIR from readdirSync / rmdirSync
    | DirectoryNotEmpty(path: Path)        // ENOTEMPTY from rmdirSync
    | UnsupportedKind(kind: nat)           // getInstalledAtomPath, numeric enum value in the message
    | ChannelNotInstalled(path: Path)      // switchToInstalledAtom: target directory missing
    | NotSquirrelPackage(dir: Path)        // getCurrentPackageVersion: no `app-` entry
    | HookFailed(exe: Path)                // spawnPromise rejected

  datatype Result<+T> = Success(value: T) | Failure(error: Error)

  datatype Outcome = Pass | Fail(error: Error)
}
