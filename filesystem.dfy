/**
  The part of the machine the channel manager touches: a map from path to
  directory entry, the log of processes it has spawned, and the Node `fs`
  calls and kernel32 calls it makes, as operations on that state.

  Only one level of link is followed: a link's target is taken to be a real
  directory or file, never another link.
 */
module Fs {
  import opened Common
  import Win32Symlink

  /** A directory with its listing in `readdirSync` order, a file, or a symbolic link. */
  datatype Entry =
    | Dir(children: seq<string>)
    | File
    | Link(target: Path, directory: bool)

  /** One `spawnPromise(exe, args)` call. */
  datatype Process = Process(exe: Path, args: seq<string>)

  /** Win32 error codes the model reports through `GetLastError`. */
  const ERROR_FILE_NOT_FOUND: int32 := 2
  const ERROR_ALREADY_EXISTS: int32 := 183

  const FILE_ATTRIBUTE_DIRECTORY: int32 := 0x10
  const FILE_ATTRIBUTE_ARCHIVE: int32 := 0x20

  /** `fs.realpathSync`: a link stands for its target. */
  function Resolve(entries: map<Path, Entry>, p: Path): Path
  {
    if p in entries && entries[p].Link? then entries[p].target else p
  }

  /** `fs.existsSync` follows the link, so a dangling link does not exist. */
  predicate Exists(entries: map<Path, Entry>, p: Path)
  {
    Resolve(entries, p) in entries
  }

  /** `statSync(p).isDirectory()` for a path that exists. */
  predicate IsDirectory(entries: map<Path, Entry>, p: Path)
    requires Exists(entries, p)
  {
    entries[Resolve(entries, p)].Dir?
  }

  /** `GetFileAttributesW(p)`: describes the entry itself, a link is not followed. */
  function Attributes(entries: map<Path, Entry>, p: Path): int32
  {
    if p !in entries then -1 as int32
    else match entries[p]
      case Dir(_) => FILE_ATTRIBUTE_DIRECTORY
      case File => FILE_ATTRIBUTE_ARCHIVE
      case Link(_, directory) => (if directory then 0x410 as int32 else 0x400 as int32)
  }

  /**
    `isPathSymbolicLink(p)` on this filesystem: it throws exactly for a path
    with no entry and otherwise reports whether the entry is a link.
   */
  function IsSymbolicLink(entries: map<Path, Entry>, p: Path): (r: Result<bool>)
    ensures r.Failure? <==> p !in entries
    ensures r.Success? ==> (r.value <==> entries[p].Link?)
  {
    var attributes := Attributes(entries, p);
    assert attributes == 0x400 || attributes == 0x410 ==> Win32Symlink.HasFlag(attributes, Win32Symlink.FILE_ATTRIBUTE_REPARSE_POINT);
    assert attributes == 0x10 || attributes == 0x20 ==> !Win32Symlink.HasFlag(attributes, Win32Symlink.FILE_ATTRIBUTE_REPARSE_POINT);
    Win32Symlink.IsPathSymbolicLink(attributes, ERROR_FILE_NOT_FOUND)
  }

  /** `fs.readdirSync(p)`: the listing of the directory `p` resolves to. */
  function ReadDir(entries: map<Path, Entry>, p: Path): (r: Result<seq<string>>)
    ensures r.Success? <==> Exists(entries, p) && IsDirectory(entries, p)
    ensures r.Success? ==> r.value == entries[Resolve(entries, p)].children
  {
    var q := Resolve(entries, p);
    if q !in entries then Failure(NoSuchPath(p))
    else match entries[q]
      case Dir(children) => Success(children)
      case _ => Failure(NotADirectory(p))
  }

  /**
    `fs.rmdirSync(p)`: removes a directory link or an empty directory and
    nothing else; a link is removed itself, never its target.
   */
  function RemoveDir(entries: map<Path, Entry>, p: Path): (r: Result<map<Path, Entry>>)
    ensures r.Success? <==> p in entries && (entries[p] == Dir([]) || (entries[p].Link? && entries[p].directory))
    ensures r.Success? ==> r.value == entries - {p}
  {
    if p !in entries then Failure(NoSuchPath(p))
    else match entries[p]
      case Dir(children) => if children == [] then Success(entries - {p}) else Failure(DirectoryNotEmpty(p))
      case File => Failure(NotADirectory(p))
      case Link(_, directory) => if directory then Success(entries - {p}) else Failure(NotADirectory(p))
  }

  /**
    What `createSymbolicLink(target, link)` does: `statSync(target)` throws
    for a missing target, the native call fails when `link` is taken, and
    otherwise `link` becomes a link to `target` of the target's type.
   */
  function CreateSymbolicLinkEffect(entries: map<Path, Entry>, target: Path, link: Path): (r: Result<map<Path, Entry>>)
    ensures r.Success? <==> Exists(entries, target) && link !in entries
    ensures r.Success? ==> link in r.value && r.value[link].Link? && r.value[link].target == target
    ensures r.Success? ==> r.value - {link} == entries - {link}
  {
    if !Exists(entries, target) then Failure(NoSuchPath(target))
    else if link in entries then Failure(CreateLinkFailed(ERROR_ALREADY_EXISTS))
    else Success(entries[link := Link(target, IsDirectory(entries, target))])
  }

  class FileSystem {
    var entries: map<Path, Entry>
    /** Every process spawned so far, in order, whatever its exit code. */
    var spawned: seq<Process>

    constructor (initial: map<Path, Entry>)
      ensures entries == initial && spawned == []
    {
      entries := initial;
      spawned := [];
    }

    method RemoveDirectory(p: Path) returns (r: Outcome)
      modifies this`entries
      ensures r.Pass? <==> RemoveDir(old(entries), p).Success?
      ensures r.Pass? ==> entries == RemoveDir(old(entries), p).value
      ensures r.Fail? ==> r.error == RemoveDir(old(entries), p).error && entries == old(entries)
    {
      var removed := RemoveDir(entries, p);
      if removed.Failure? {
        return Fail(removed.error);
      }
      entries := removed.value;
      r := Pass;
    }

    /**
      The native `CreateSymbolicLinkW(lpSymlinkFileName, lpTargetFileName, dwFlags)`:
      the entry is made at its FIRST argument and points at its SECOND; it
      returns 0 when the first is already taken.
     */
    method CreateSymbolicLinkW(symlinkFileName: Path, targetFileName: Path, flags: int32) returns (ret: int32)
      modifies this`entries
      ensures ret == 0 <==> symlinkFileName in old(entries)
      ensures ret == 0 ==> entries == old(entries)
      ensures ret != 0 ==> entries == old(entries)[symlinkFileName :=
        Link(targetFileName, Win32Symlink.HasFlag(flags, Win32Symlink.SYMBOLIC_LINK_FLAG_DIRECTORY))]
    {
      if symlinkFileName in entries {
        return 0;
      }
      entries := entries[symlinkFileName :=
        Link(targetFileName, Win32Symlink.HasFlag(flags, Win32Symlink.SYMBOLIC_LINK_FLAG_DIRECTORY))];
      ret := 1;
    }

    /** `createSymbolicLink(target, link)`: stat, choose the flags, call, check. */
    method CreateSymbolicLink(target: Path, link: Path) returns (r: Outcome)
      modifies this`entries
      ensures r.Pass? <==> CreateSymbolicLinkEffect(old(entries), target, link).Success?
      ensures r.Pass? ==> entries == CreateSymbolicLinkEffect(old(entries), target, link).value
      ensures r.Fail? ==> r.error == CreateSymbolicLinkEffect(old(entries), target, link).error && entries == old(entries)
    {
      if !Exists(entries, target) {
        return Fail(NoSuchPath(target));
      }
      var flags := Win32Symlink.LinkFlags(IsDirectory(entries, target));
      var ret := CreateSymbolicLinkW(link, target, flags);
      r := Win32Symlink.CheckCreateResult(ret, ERROR_ALREADY_EXISTS);
    }

    /** `spawnPromise(exe, args)`; `launch` says whether the process exits with code 0. */
    method Spawn(p: Process, launch: Process -> bool) returns (ok: bool)
      modifies this`spawned
      ensures spawned == old(spawned) + [p]
      ensures ok == launch(p)
    {
      spawned := spawned + [p];
      ok := launch(p);
    }
  }
}
