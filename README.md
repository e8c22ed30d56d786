# atom-version-manager: channel switching, modelled in Dafny

atom-version-manager (`avm`) keeps several Atom channels (stable, beta and daily) installed side by side, under
`<root>\avm-atom-<channel>`. It makes one of them active by pointing the well-known path `<root>\atom` at that
directory with a Windows symbolic link. This project models the part of the tool that decides and changes which
channel is active. That part is made of the following pieces:

- the channel kinds and their directory names (`getInstalledAtomPath`);
- reading the active channel back from the link (`getInstalledAtomVersionType`). A case-insensitive regular
  expression finds the channel word in the resolved path, and then a case-sensitive `switch` compares the captured
  text;
- choosing the current installed version from the `app-<version>` sub-directories (`getCurrentPackageVersion`);
- the Squirrel lifecycle hooks and the deactivate/switch sequence (`runInstallHookOnCurrentAtom`,
  `uninstallCurrentAtom`, `switchToInstalledAtom`);
- the Win32 data handling around the symlink calls (`TEXT`, `isPathSymbolicLink`, `createSymbolicLink`).

Files:

- `common.dfy` (module `Common`) defines `int32`, paths, `Option`/`Result`/`Outcome`, and the `Error` datatype. Each
  `throw` and each rejected promise becomes a `Failure`/`Fail`.
- `win32_symlink.dfy` (module `Win32Symlink`) models UCS-2 encoding and `TEXT`. `TEXT` is a method that allocates a
  zero-filled array and copies into it. The module also holds the attribute-word decoding, the link flags and the
  `CreateSymbolicLinkW` return check. Bit tests go through `bv32`, as JavaScript's `&` does through ToInt32.
- `filesystem.dfy` (module `Fs`) models the machine. It is a class `FileSystem` with a map from path to
  `Dir(children) | File | Link(target, directory)` and a log of spawned processes. The Node `fs` calls and the
  kernel32 calls are operations on this state:
  - `existsSync` and `realpathSync` follow a link;
  - `GetFileAttributesW` does not follow a link;
  - the native `CreateSymbolicLinkW` makes its first argument a link to its second, and returns 0 when the first
    is already taken.
- `api.dfy` (module `Api`) models `src/api.ts`:
  - `semver.gte` is a parameter `gte`. It is assumed to be a total preorder only where a lemma needs that.
  - Whether a spawned process exits with code 0 is a parameter `launch`.
  - Each asynchronous operation appears twice. A function gives its `Effect`: the outcome, the new entries and the
    processes spawned. A method on the `FileSystem` performs the same steps and is proved to have exactly that
    effect.

The following quirks of the source are reproduced on purpose:

- `\AVM-ATOM-Stable` matches the regular expression but classifies as Unknown, because the `switch` is
  case-sensitive.
- The regular expression has no end anchor, and only the leftmost match is considered.
- `switchToInstalledAtom` deactivates the default root, not `baseDir`.
- A failing uninstall hook aborts the deactivation before the link is removed.
- The install hook after a switch is not awaited.
- An empty `baseDir` falls back to the default root, because `||` treats `""` as false.
- A dangling link counts as "not installed", because `existsSync` follows links.

Further facts about the program:

- The channel word is searched for anywhere in the resolved path, not only in its last component.
- `src/cli.ts:37` passes a second argument `true` to `uninstallCurrentAtom`, which declares only `baseDir`. The extra
  argument has no effect, so there is no forced uninstall.
- If the channel directory is itself a link whose target is the default root's `atom` path, deactivation removes
  that target. The channel link then dangles, and the switch fails with a missing path.

## Model

| member | source | states |
|---|---|---|
| `Api.GetInstalledAtomPath` | src/api.ts:83-101 | Succeeds exactly for Stable/Beta/Daily, with `<root>\avm-atom-<channel>`. For NotInstalled/Unknown it fails with the enum's numeric value. |
| `Api.InstalledAtomPathInjective` | src/api.ts:86-100 | Two kinds that get the same installed path under one root are the same kind. |
| `Api.ChannelPathIsNotAtomPath` | src/api.ts:65 | A channel directory never coincides with the active path `<root>\atom` of any root. |
| `Api.FirstMatch` | src/api.ts:29 | Returns the leftmost index at which `\avm-atom-(stable\|beta\|daily)` matches case-insensitively. Every earlier index has no match, and None means no index matches. |
| `Api.KindOfCapture` | src/api.ts:32-41 | Case-sensitive switch: a channel kind is returned only when the capture is exactly the lower-case channel word. Otherwise the result is Unknown. |
| `Api.Classify` | src/api.ts:29-41 | Never NotInstalled. No match anywhere gives Unknown. |
| `Api.ClassifyLeftmost` | src/api.ts:29-41 | Take a prefix with no marker, then the marker in any case, then a channel word in any case, then any text. The result is decided by the exact text of that channel word. So the leftmost match wins and there is no end anchor. |
| `Api.ClassifyRoundTrip` | src/api.ts:29-38 | Classifying `base\avm-atom-<k>` gives `k` for each channel, when `base` contains no marker. |
| `Api.UpperCaseCaptureIsUnknown` | src/api.ts:29-41 | `C:\AVM-ATOM-Stable` matches the regex but classifies as Unknown. |
| `Api.TrailingTextIsIgnored` | src/api.ts:29 | `C:\avm-atom-stable-old\app` classifies as Stable. |
| `Api.LeftmostMatchDecides` | src/api.ts:29-41 | `D:\avm-atom-Beta\avm-atom-daily` is Unknown: the later lower-case match is never considered. |
| `Api.GetInstalledAtomVersionType` | src/api.ts:17-42 | NotInstalled exactly when `<root>\atom` does not exist (including a dangling link). Unknown when it exists but is not a link. Otherwise the result is the classification of the link's target. |
| `Api.ActiveKindIsLocal` | src/api.ts:17-28 | The detected kind depends only on the entry at `<root>\atom` and on whether its link target exists. |
| `Api.AppEntries` | src/api.ts:72 | Keeps exactly the names containing `app-`. Order is fixed by `AppEntriesAppend` and `AppEntriesSuffix`. |
| `Api.AppEntriesAppend` | src/api.ts:72 | Filtering a concatenation is the concatenation of the filtered parts, so the listing order is kept. |
| `Api.AppEntriesSuffix` | src/api.ts:72 | The `i`-th kept name sits at some index `k` of the listing, and the names kept after it are exactly the names kept from the listing after `k`. |
| `Api.StripAppPrefix` | src/api.ts:78 | Removes `app-` only when it is a prefix. Any other name is returned unchanged. |
| `Api.Newest` | src/api.ts:77-80 | The fold returns either the seed, when no candidate is `gte` it, or a candidate that no later candidate is `gte`. So among equal versions the later entry wins. |
| `Api.NewestIsUpperBound` | src/api.ts:77-80 | Under a total preorder, the fold's result is `gte` the seed and `gte` every candidate. |
| `Api.NewestIgnoresOrder` | src/api.ts:77-80 | Permuting the candidates changes the result only to an equivalent version. |
| `Api.GetCurrentPackageVersion` | src/api.ts:71-81 | Fails when the directory cannot be listed, or exactly when no entry contains `app-`. Otherwise, either no `app-` version is `gte` `0.0.0` and the result is `0.0.0`, or the result is the stripped name at some index of the listing that no later `app-` name is `gte` (among equal versions the later listed wins). |
| `Api.NewestOverListing` | src/api.ts:72-80 | The fold over the filtered and stripped listing keeps `0.0.0` only when no `app-` version is `gte` it, and otherwise picks a name no later `app-` name of the listing is `gte`. |
| `Api.LaterWinsInListing` | src/api.ts:72-80 | A kept version that no later kept version is `gte` is the stripped name at an index of the listing that no later `app-` name is `gte`. |
| `Api.LaterNameIsLaterKept` | src/api.ts:72 | An `app-` name later in the listing than a kept name is kept at a later position. |
| `Api.NoVersionInListing` | src/api.ts:72-80 | When no kept version is `gte` `0.0.0`, no `app-` name of the listing is. |
| `Api.CurrentPackageVersionIsNewest` | src/api.ts:71-81 | The chosen version is `gte` `0.0.0` and every installed `app-` version. |
| `Api.HookEffect` | src/api.ts:103-113 | Does nothing when the active path is absent. Otherwise a process is spawned exactly when the current version is found, and a version failure fails the hook with that error. The one process is `<atom>\app-<v>\atom.exe` with exactly `["--squirrel-" + type, v]`. The hook succeeds exactly when that process succeeds, and entries are unchanged. |
| `Api.HookRunsNewestVersion` | src/api.ts:103-113 | With the active path present and any `app-` directory in it, the hook spawns exactly one process: the `atom.exe` of a version `gte` every installed one. |
| `Api.UninstallEffect` | src/api.ts:44-55 | A no-op when the active path is absent. Otherwise the uninstall hook runs first, and its failure leaves the entries unchanged. After a passing hook, a directory link at the active path is removed and nothing else changes. A file link fails with ENOTDIR and nothing changes. A plain directory is kept. |
| `Api.UninstallDeactivates` | src/api.ts:44-55 | After a passing uninstall of an active link, `getInstalledAtomVersionType` reports NotInstalled. |
| `Api.SwitchEffect` | src/api.ts:57-69 | A sentinel kind or a missing channel directory fails with no change and no process. A failing deactivation of the default root is the switch's result. Otherwise the switch succeeds exactly when the channel directory still exists and `<baseDir>\atom` is free. The new entries are then the deactivated ones plus a link from `<baseDir>\atom` to the channel directory. The processes are the uninstall hook's followed by the install hook's. An occupied `<baseDir>\atom` fails with ERROR_ALREADY_EXISTS. No path other than the two `atom` paths changes. |
| `Api.SwitchActivatesChannel` | src/api.ts:57-69 | After a successful switch, the detected active kind is the kind switched to, when the root contains no marker. |
| `Api.SwitchIgnoresInstallHook` | src/api.ts:68 | Changing the exit of `--squirrel-install` processes changes nothing in the switch's effect. |
| `Api.SwitchBlockedByOtherRoot` | src/api.ts:63-66 | Deactivation acts on the default root. So with another `baseDir` whose `atom` entry already exists, the switch fails. |
| `Api.RunInstallHookOnCurrentAtom` | src/api.ts:103-113 | Its outcome and the processes it spawns are exactly those of `HookEffect`, and it leaves the entries unchanged. |
| `Api.UninstallCurrentAtom` | src/api.ts:44-55 | Its outcome, new entries and spawned processes are exactly those of `UninstallEffect`. |
| `Api.SwitchToInstalledAtom` | src/api.ts:57-69 | Its outcome, new entries and spawned processes are exactly those of `SwitchEffect`. |
| `Win32Symlink.Ucs2` | src/win32-symlink.ts:9 | Produces `2n` bytes, with code unit `i` at bytes `2i` (low) and `2i+1` (high). |
| `Win32Symlink.DecodeUcs2OfUcs2` | src/win32-symlink.ts:9 | Decoding the UCS-2 bytes of a string gives the string back. |
| `Win32Symlink.Ucs2OfDecodeUcs2` | src/win32-symlink.ts:9 | Encoding the decoded units of an even-length byte string gives the bytes back. |
| `Win32Symlink.Text` | src/win32-symlink.ts:7-12 | Produces `4(n+1)` bytes: the little-endian code units in `[0, 2n)` and zeros in `[2n, 4n+4)`. Decoding the first `2n` bytes gives back `s`. |
| `Win32Symlink.IsPathSymbolicLink` | src/win32-symlink.ts:24-34 | Fails, carrying the last-error code, exactly for `-1`. Otherwise the result is true exactly when bit `0x400` is set. |
| `Win32Symlink.ErrorSentinelHasReparseBit` | src/win32-symlink.ts:27-33 | `-1` has bit `0x400` set, so the sentinel must be tested first. |
| `Win32Symlink.LinkFlags` | src/win32-symlink.ts:40-44 | Bit `0x2` is always set. Bit `0x1` is set exactly for a directory target. No other bit is set. |
| `Win32Symlink.CheckCreateResult` | src/win32-symlink.ts:46-51 | Succeeds exactly when the native result is non-zero. Otherwise it fails with the last-error code. |
| `Fs.IsSymbolicLink` | src/win32-symlink.ts:24-34 | On the filesystem it throws exactly for a path with no entry (the "bogus path" case). Otherwise it is true exactly for a link entry. |
| `Fs.CreateSymbolicLinkEffect` | src/win32-symlink.ts:36-52 | Succeeds exactly when the target exists and the link path is free. Then the link path is a link to the target, and nothing else changes. |
| `Fs.FileSystem.CreateSymbolicLinkW` | src/win32-symlink.ts:46 | The native call creates the entry at its first argument (the link) pointing at its second (the target). The directory flag comes from bit `0x1`. It returns 0 when the first argument is taken. |
| `Fs.FileSystem.CreateSymbolicLink` | src/win32-symlink.ts:36-52 | It stats the target, chooses the flags, calls the native function with link first and target second, and checks the result. Its effect is exactly `CreateSymbolicLinkEffect`. |
| `Fs.RemoveDir` | src/api.ts:53 | `rmdirSync` removes a directory link or an empty directory, and only that entry. It never removes a link's target. |

## Left out

- `findLatestFullNugetFromReleasesFile`, `cleanInstallAtomVersion`, `getAllInstalledAtomVersions` and the other
  helpers that `src/cli.ts` imports are not part of this model. The installer pipeline (download, extraction,
  retries, pauses) is not part of this model either.
- `src/cli.ts` (prompts, console output, `process.exit`) and `src/zip-utils.ts` (streaming unzip) are not modelled.
- `semver` is a parameter. Its exceptions on malformed version strings are not modelled.
- `spawnPromise` is the parameter `launch`. It depends only on the process and its arguments, and a hook's own
  side effects on the disk are not modelled.
- `GetLastError` is a fixed code per failure: 2 for a missing path, 183 for an occupied link path.
- `CreateSymbolicLinkW` failing for a missing parent directory, for missing privileges, or for invalid flags is not
  modelled.
- `%LOCALAPPDATA%` is the constant `C:\Users\user\AppData\Local`.
- `path.join` is modelled as concatenation with `\`. It does not normalise separators, `.` or `..`.
- `realpathSync` and `existsSync` follow one level of link. Link chains, link loops and case normalisation of the
  real path are not modelled.
- Creating or removing `<root>\atom` does not update the listing stored for `<root>` itself, since nothing in the
  modelled code reads that listing.
- `TEXT` takes the string as UTF-16 code units. The path strings of the filesystem model are not converted through
  it, and the native calls take the paths directly.
- Asynchronous scheduling is modelled as sequential execution. The un-awaited install hook runs to completion
  before `switchToInstalledAtom` returns, and its rejection is dropped.
