# UIImageDefaults, modelled in Dafny

UIImageDefaults caches images on disk under string keys. It keeps one flat
directory, `UIImageDefaultsImages`, inside the app's documents directory. Each
image is one file whose name is the key with every `/` rewritten to `\`.
`UIImage` gets `saveImage`, `getImage`, `init?(forKey:)`, `removeImage` and
`removeImages`. `UIImageView.loadCachedImage` shows the cached image at once,
runs a loader (a URL download, or a caller's closure) on a miss or when
updates are asked for, and shows and saves what the loader returns.
`UserDefaults` forwards four entry points to the store.

The model has five modules:

- `Wrappers` (`wrappers.dfy`): `Option`, standing for Swift's `T?`.
- `KeyEscaping` (`key_escaping.dfy`): `isKeyEmpty` and `escapeKey`, with their
  properties proved by induction.
- `ImageExtension` (`image_store.dfy`): the state model and the store.
  - The images directory is a `Disk`: a flag saying whether the directory
    exists, and a map from entry name to bytes.
  - The JPEG codec is a `Codec` holding two function values. `encode` stands
    for `jpegData` and may return nil. `decode` stands for `UIImage(data:)`
    and `UIImage(contentsOfFile:)`.
  - The reads (`getImageData`, `UIImage(contentsOfFile:)`, `init?(forKey:)`,
    `getImage`) are functions over a `Disk`.
  - The writers are methods of the class `ImageStore`, which updates its
    fields `dirExists` and `files` in place.
  - Each writer is proved to leave exactly the state given by a specification
    function of the old state (`Saved`, `Removed`, `Cleared`). Lemmas state
    what those functions promise.
  - `removeImages` is a loop over the directory listing. It stops at the first
    removal that throws.
- `ImageViewExtension` (`image_view.dfy`): the class `ImageView` with its
  `image` field. The asynchronous load is split into two steps.
  - `LoadCachedImage` is the synchronous part. It says whether the loader was
    started.
  - `LoaderCompleted` is the completion handler. It is called once, with the
    loader's `Option<Image>` result.
  - The URL overload is the pair `LoadCachedImageWithUrl` /
    `DownloadCompleted`. It is written out separately, as in the source, and
    proved against the same `StartLoad` / `CompleteLoad` functions, with the
    URL as the key.
- `UserDefaultsExtension` (`user_defaults.dfy`): the class `UserDefaults`.
  Each of its methods is proved to have exactly the effect of the store
  operation it forwards to.

Every I/O outcome the code branches on is a parameter:

- `createDirOk`: whether creating the directory succeeds.
- `removeOk`: whether removing a file succeeds.
- `writeOk`: whether writing the file succeeds.
- `listing`: what the directory listing returns. `None` means it threw.
- `failAt`: the index of the first removal in `removeImages` that throws. A
  value of `|listing|` or more means no removal throws.

A few behaviours come from the file system rather than from the code, and the
model states them explicitly:

- A missing directory has no entries.
- Listing a missing directory throws.
- Writing a file into a missing directory fails. So in `saveImage`, when
  directory creation fails, the write is still attempted (as in the code),
  but it has no effect.
- A directory listing names each entry once.

Some behaviours of the code are easy to misread; the model follows the code:

- A failed directory creation does not abort `saveImage`. It is logged and
  the write is still attempted.
- `saveImage` and `removeImage` remove an old entry only when its bytes
  decode as an image. An undecodable entry is never deleted by
  `removeImage`; `saveImage` overwrites it if the write succeeds.
- `removeImages` is not best effort per entry. The first removal that throws
  ends the loop, and the remaining entries are not tried.
- An empty key does not abort `loadCachedImage(withKey:checkForUpdates:withLoader:)`.
  `UIImage(forKey: "")` is nil, so the call is a miss: the loader runs, and a
  loaded image is shown but not saved. (The URL overload with an empty URL
  traps instead; see "Left out".)
- Encoding can fail (`jpegData` returns nil). Then nothing is written.

## Model

| member | source | states |
|---|---|---|
| `KeyEscaping.EscapeKey` | UIImageDefaults/UIImageDefaults/UIImageExtension.swift:22-29 | `escapeKey` as a left-to-right rewrite; its result has the same length as the key |
| `KeyEscaping.EscapeKeyAt` | UIImageDefaults/UIImageDefaults/UIImageExtension.swift:22-29 | `EscapeKey` (`escapeKey`) keeps the length; every `/` becomes `\`; every other character stays in place |
| `KeyEscaping.EscapeKeyEmptyIff` | UIImageDefaults/UIImageDefaults/UIImageExtension.swift:14-20 | the escaped key is empty exactly when the raw key is, so the empty check after escaping refuses exactly `""` |
| `KeyEscaping.EscapeKeyHasNoSeparator` | UIImageDefaults/UIImageDefaults/UIImageExtension.swift:22-29 | no escaped key contains `/`, so every file name is one path segment |
| `KeyEscaping.EscapeKeyFixesPlainKey` | UIImageDefaults/UIImageDefaults/UIImageExtension.swift:22-29 | a key without `/` is its own file name |
| `KeyEscaping.EscapeKeyIdempotent` | UIImageDefaults/UIImageDefaults/UIImageExtension.swift:22-29 | escaping twice is escaping once |
| `KeyEscaping.EscapeKeySameFileIff` | UIImageDefaults/UIImageDefaults/UIImageExtension.swift:22-29 | two keys get the same file name if and only if they differ only by `/` versus `\` |
| `ImageExtension.GetImageDecodesEntry` | UIImageDefaults/UIImageDefaults/UIImageExtension.swift:130-150 | `GetImage` (`getImage`, via `ImageData` for `getImageData`) is the decoding of the entry `escapeKey(k)`; it is nil for the empty key, a missing entry, or bytes that do not decode |
| `ImageExtension.InitForKeyIsGetImage` | UIImageDefaults/UIImageDefaults/UIImageExtension.swift:47-59 | `InitForKey` (`UIImage(forKey:)`) gives the same result as `getImage(forKey:)` on every key |
| `ImageExtension.EmptyKeyReadsNothing` | UIImageDefaults/UIImageDefaults/UIImageExtension.swift:47-51 | with the empty key, `init?(forKey:)` and `getImage` both return nil |
| `ImageExtension.SlashLikeKeysReadAlike` | UIImageDefaults/UIImageDefaults/UIImageExtension.swift:130-136 | keys that differ only by `/` versus `\` read the same image |
| `ImageExtension.SavedWellFormed` | UIImageDefaults/UIImageDefaults/UIImageExtension.swift:84-121 | saving keeps the directory well formed: no entries without the directory, and every name is non-empty and contains no `/` |
| `ImageExtension.SaveEmptyKeyChangesNothing` | UIImageDefaults/UIImageDefaults/UIImageExtension.swift:84-88 | `saveImage` with the empty key leaves the directory flag and all entries unchanged |
| `ImageExtension.SaveThenGet` | UIImageDefaults/UIImageDefaults/UIImageExtension.swift:84-121 | round trip for `Saved` (the directory after `saveImage`): if encoding gives `data`, the directory exists or is created, and the write succeeds, then the entry `escapeKey(k)` is `data` and `getImage(k)` is `decode(data)`, whatever happened to the old entry |
| `ImageExtension.SaveTouchesOnlyItsEntry` | UIImageDefaults/UIImageDefaults/UIImageExtension.swift:94-120 | saving changes only the directory flag and the entry `escapeKey(k)`; afterwards the directory exists exactly when it existed before or was created |
| `ImageExtension.SaveWithoutEncoding` | UIImageDefaults/UIImageDefaults/UIImageExtension.swift:105-120 | when encoding gives nil, nothing is written, but an old entry that decodes has already been removed (unless the removal failed) |
| `ImageExtension.SaveWithoutDirectory` | UIImageDefaults/UIImageDefaults/UIImageExtension.swift:94-103 | a failed directory creation is only logged and the write is still attempted; the write fails, so the missing directory stays missing and empty |
| `ImageExtension.SlashLikeKeysSaveAlike` | UIImageDefaults/UIImageDefaults/UIImageExtension.swift:84-90 | keys that differ only by `/` versus `\` are saved to the same entry, with the same effect |
| `ImageExtension.RemovedWellFormed` | UIImageDefaults/UIImageDefaults/UIImageExtension.swift:157-178 | removing keeps the directory well formed |
| `ImageExtension.RemoveDeletesOnlyDecodableEntry` | UIImageDefaults/UIImageDefaults/UIImageExtension.swift:157-178 | `Removed` (the directory after `removeImage(k)`, using `ImageAtPath` for `UIImage(contentsOfFile:)`) changes the directory if and only if `k` is not empty, the entry exists and decodes, and the removal succeeds; it then deletes that entry and no other, and `k` reads nil afterwards |
| `ImageExtension.RemoveMissingKeyChangesNothing` | UIImageDefaults/UIImageDefaults/UIImageExtension.swift:163-177 | removing a key that has no entry is a no-op, and the key still reads nil |
| `ImageExtension.ClearedWellFormed` | UIImageDefaults/UIImageDefaults/UIImageExtension.swift:183-197 | clearing keeps the directory well formed |
| `ImageExtension.ClearWithoutListingChangesNothing` | UIImageDefaults/UIImageDefaults/UIImageExtension.swift:183-197 | if the listing throws (always the case for a missing directory), `removeImages` changes nothing |
| `ImageExtension.ClearStopsAtFailure` | UIImageDefaults/UIImageDefaults/UIImageExtension.swift:186-196 | for `Cleared` (the directory after `removeImages`): entries listed before the first failing removal are gone; that entry and the ones after it remain, with their bytes; the directory itself stays |
| `ImageExtension.ClearWithoutFailureEmpties` | UIImageDefaults/UIImageDefaults/UIImageExtension.swift:186-192 | with no failing removal the directory ends up empty, and every key reads nil |
| `ImageExtension.ImageStore.SaveImage` | UIImageDefaults/UIImageDefaults/UIImageExtension.swift:84-121 | the step-by-step save (create directory, remove a decodable old entry, write the encoding) leaves exactly `Saved` of the old state and keeps the store well formed |
| `ImageExtension.ImageStore.RemoveImage` | UIImageDefaults/UIImageDefaults/UIImageExtension.swift:157-178 | the removal leaves exactly `Removed` of the old state |
| `ImageExtension.ImageStore.RemoveImages` | UIImageDefaults/UIImageDefaults/UIImageExtension.swift:183-197 | the loop deletes entries in listing order until the first removal that throws, leaving exactly `Cleared` of the old state; a body assertion (not part of the contract) checks that every listed name still exists when its turn comes |
| `ImageViewExtension.ImageView.LoadCachedImage` | UIImageDefaults/UIImageDefaults/UIImageViewExtension.swift:90-114 | leaves `StartLoad` of the old state: on a hit the view shows the cached image and the loader starts only if `checkForUpdates`; on a miss the view is untouched and the loader starts |
| `ImageViewExtension.ImageView.LoaderCompleted` | UIImageDefaults/UIImageDefaults/UIImageViewExtension.swift:95-111 | leaves `CompleteLoad` of the old state: a loaded image is shown and saved under the key; a nil result changes neither the view nor the store |
| `ImageViewExtension.ImageView.LoadCachedImageWithUrl` | UIImageDefaults/UIImageDefaults/UIImageViewExtension.swift:53-77 | the URL overload takes the same first step as the key overload, with the URL as the key |
| `ImageViewExtension.ImageView.DownloadCompleted` | UIImageDefaults/UIImageDefaults/UIImageViewExtension.swift:21-42 | `DownloadedImage` (the result `loadImage` hands on): the download's bytes are decoded (nil when the download or the decode fails) and then handled exactly as a loader result for the URL key |
| `ImageViewExtension.HitWithoutUpdates` | UIImageDefaults/UIImageDefaults/UIImageViewExtension.swift:91-94 | a hit with `checkForUpdates == false` shows the cached image and never starts the loader |
| `ImageViewExtension.HitWithSuccessfulUpdate` | UIImageDefaults/UIImageDefaults/UIImageViewExtension.swift:91-101 | a hit with updates shows the cached image first; if the loader then returns `B` and the save goes through, the view shows `B` and the entry holds `encode(B)` |
| `ImageViewExtension.MissAlwaysLoads` | UIImageDefaults/UIImageDefaults/UIImageViewExtension.swift:102-113 | on a miss (entry absent or undecodable, or empty key) the view is not assigned and the loader starts whatever `checkForUpdates` is |
| `ImageViewExtension.MissThenSuccessfulLoad` | UIImageDefaults/UIImageDefaults/UIImageViewExtension.swift:104-111 | after a miss, a successful result is the first image the view gets, and (when the save goes through) the key's entry holds its encoding |
| `ImageViewExtension.FailedUpdateKeepsCachedImage` | UIImageDefaults/UIImageDefaults/UIImageViewExtension.swift:91-100 | after a hit, a nil loader result leaves the cached image shown and the store unchanged; the key still reads that image |
| `ImageViewExtension.EmptyKeyLoadsButNeverSaves` | UIImageDefaults/UIImageDefaults/UIImageViewExtension.swift:104-111 | the empty key always misses, so the loader runs; a loaded image is shown but nothing is saved |
| `UserDefaultsExtension.UserDefaults.Set` | UIImageDefaults/UIImageDefaults/UserDefaultsExtension.swift:19-21 | has exactly the effect of `value.saveImage(forKey: key)` |
| `UserDefaultsExtension.UserDefaults.UIImage` | UIImageDefaults/UIImageDefaults/UserDefaultsExtension.swift:30-32 | returns exactly `getImage(forKey: key)` and changes nothing |
| `UserDefaultsExtension.UserDefaults.RemoveImage` | UIImageDefaults/UIImageDefaults/UserDefaultsExtension.swift:40-42 | has exactly the effect of `UIImage.removeImage(forKey: key)` |
| `UserDefaultsExtension.UserDefaults.RemoveImages` | UIImageDefaults/UIImageDefaults/UserDefaultsExtension.swift:47-49 | has exactly the effect of `UIImage.removeImages()` |

## Left out

- The network download inside `loadImage` (`URLSession`), the force-unwrap of `URL(string:)`, and the force-unwrap of a nil error: the download is the `download: Option<Bytes>` parameter of `DownloadCompleted`, and a crash is not modelled. In particular `loadCachedImage(withUrl: "")` misses and then traps at `URL(string: "")!`, since that URL is nil; the model instead lets `LoadCachedImageWithUrl` with `""` start a download and `DownloadCompleted` show its image, which the source never does.
- `DispatchQueue.main.async` and any interleaving of concurrent loads or writes to the same key. The model is sequential: a load is its synchronous step, then exactly one completion.
- `os_log` calls. They never affect control flow.
- `NSSearchPathForDirectoriesInDomains` and path building (`imagesPath`, `appendingPathComponent`). The images directory is one abstract `Disk`, and entries are addressed by the escaped key alone. `appendingPathComponent` only joins text; the file system then resolves names such as `.` and `..` to the directory itself or its parent. The model treats them as ordinary entry names.
- Platform file-name equivalence. File names are compared as plain code-point sequences (`map<string, Bytes>` keyed by `EscapeKey(key)`). Swift `String` equality is canonical equivalence, and Apple file systems may fold Unicode normalisation and, on some volumes, case. Canonically equivalent or case-variant keys that the platform maps to one file are separate entries here. So the "only if" half of `EscapeKeySameFileIff` and the "every other entry is kept" part of `SaveTouchesOnlyItsEntry` hold of the model's string equality, not of the platform's.
- The JPEG codec internals. `jpegData` and `UIImage(data:)` are the function values of `Codec`.
- Read errors other than a missing entry. `getImageData` treats every read failure as "no data"; in the model an entry is either present and readable or absent.
- A path at `imagesPath` that exists but is not a directory. The model only has "directory exists or not".
- The example app's `ViewController`. It makes one call and has no logic.
