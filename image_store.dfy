/**
  The on-disk image store behind `UIImage`: one flat directory whose entries
  are named by escaped keys and hold encoded image bytes. The directory is a
  flag (does it exist) and a map from entry name to bytes; the JPEG codec is an
  abstract pair of functions; every I/O step the code branches on (creating the
  directory, removing a file, writing a file, listing the directory) takes its
  outcome from a parameter.

  The pure reads (`getImageData`, `UIImage(contentsOfFile:)`, `init?(forKey:)`,
  `getImage`) are functions over a `Disk`. The writers (`saveImage`,
  `removeImage`, `removeImages`) are methods of the class `ImageStore`, each
  proved to leave the state given by a specification function (`Saved`,
  `Removed`, `Cleared`) of the old state; the lemmas below state what those
  functions promise.
 */
module ImageExtension {

  import opened Wrappers
  import opened KeyEscaping

  newtype byte = b: int | 0 <= b < 256

  type Bytes = seq<byte>

  /** A decoded image; the store never looks inside one. */
  datatype Image = Image(bitmap: Bytes)

  /**
    The image codec: `encode` is `jpegData(compressionQuality: 1)`, which may
    return nil; `decode` is `UIImage(data:)`, nil on bytes that are not an image.
   */
  datatype Codec = Codec(encode: Image -> Option<Bytes>, decode: Bytes -> Option<Image>)

  /** The images directory: whether it exists, and its entries by name. */
  datatype Disk = Disk(dirExists: bool, files: map<string, Bytes>)

  /** A missing directory has no entries, and every entry is one non-empty path segment. */
  predicate WellFormed(d: Disk) {
    (!d.dirExists ==> d.files == map[]) &&
    forall name :: name in d.files ==> name != "" && Separator !in name
  }

  // ---------------------------------------------------------------- reads

  /** `getImageData(forKey:)`: the bytes of the entry, nil when there is none. */
  function ImageData(d: Disk, name: string): Option<Bytes> {
    if name in d.files then Some(d.files[name]) else None
  }

  /** `UIImage(contentsOfFile:)` on the entry `name`. */
  function ImageAtPath(d: Disk, name: string, codec: Codec): Option<Image> {
    match ImageData(d, name)
    case None => None
    case Some(data) => codec.decode(data)
  }

  /** `UIImage(forKey:)`, the failable initialiser. */
  function InitForKey(d: Disk, key: string, codec: Codec): Option<Image> {
    var escapedKey := EscapeKey(key);
    if IsKeyEmpty(escapedKey) then None
    else match ImageData(d, escapedKey)
      case Some(data) => codec.decode(data)
      case None => None
  }

  /** `UIImage.getImage(forKey:)`. */
  function GetImage(d: Disk, key: string, codec: Codec): Option<Image> {
    var escapedKey := EscapeKey(key);
    if IsKeyEmpty(escapedKey) then None
    else if ImageData(d, escapedKey).None? then None
    else codec.decode(ImageData(d, escapedKey).value)
  }

  // ---------------------------------------------------------------- writes, as functions of the old state

  /**
    The directory after `img.saveImage(forKey: key)`: create the directory if
    it is missing (a failure is only logged), remove the old entry if it decodes
    as an image (a failure is only logged), then write the encoding, if there is
    one. Writing into a directory that does not exist fails.
   */
  function Saved(d: Disk, img: Image, key: string, codec: Codec,
                 createDirOk: bool, removeOk: bool, writeOk: bool): Disk
  {
    var name := EscapeKey(key);
    if IsKeyEmpty(name) then d
    else
      var withDir := if d.dirExists then d else d.(dirExists := createDirOk);
      var withoutOld := if ImageAtPath(withDir, name, codec).Some? && removeOk
                        then withDir.(files := withDir.files - {name})
                        else withDir;
      match codec.encode(img)
      case None => withoutOld
      case Some(data) =>
        if writeOk && withoutOld.dirExists
        then withoutOld.(files := withoutOld.files[name := data])
        else withoutOld
  }

  /** The directory after `UIImage.removeImage(forKey: key)`: only an entry that decodes is removed. */
  function Removed(d: Disk, key: string, codec: Codec, removeOk: bool): Disk {
    var name := EscapeKey(key);
    if IsKeyEmpty(name) then d
    else if ImageAtPath(d, name, codec).Some? && removeOk then d.(files := d.files - {name})
    else d
  }

  /** `names` lists every entry of `files` exactly once. */
  predicate Enumerates(names: seq<string>, files: map<string, Bytes>) {
    (forall i, j :: 0 <= i < j < |names| ==> names[i] != names[j]) &&
    files.Keys == (set name | name in names)
  }

  /**
    What `contentsOfDirectory(atPath:)` can give: `None` when it throws, which
    it always does for a missing directory, or a listing of the entries.
   */
  predicate IsListingOf(d: Disk, listing: Option<seq<string>>) {
    listing.Some? ==> d.dirExists && Enumerates(listing.value, d.files)
  }

  /** The names `removeImages` deletes: the listing up to the first removal that throws, at `failAt`. */
  function DeletedNames(names: seq<string>, failAt: nat): set<string> {
    var stop := if failAt < |names| then failAt else |names|;
    set name | name in names[..stop]
  }

  /** The directory after `UIImage.removeImages()`. */
  function Cleared(d: Disk, listing: Option<seq<string>>, failAt: nat): Disk {
    match listing
    case None => d
    case Some(names) => d.(files := d.files - DeletedNames(names, failAt))
  }

  // ---------------------------------------------------------------- properties of the reads

  /** `getImage` gives the decoding of the key's entry, and nil for the empty key, a missing entry or bytes that do not decode. */
  lemma GetImageDecodesEntry(d: Disk, key: string, codec: Codec)
    ensures GetImage(d, key, codec) ==
      if key == "" || EscapeKey(key) !in d.files then None else codec.decode(d.files[EscapeKey(key)])
  {
    EscapeKeyEmptyIff(key);
  }

  /** `UIImage(forKey:)` and `getImage(forKey:)` agree on every key. */
  lemma InitForKeyIsGetImage(d: Disk, key: string, codec: Codec)
    ensures InitForKey(d, key, codec) == GetImage(d, key, codec)
  {
  }

  /** With the empty key there is never an image. */
  lemma EmptyKeyReadsNothing(d: Disk, codec: Codec)
    ensures GetImage(d, "", codec) == None && InitForKey(d, "", codec) == None
  {
  }

  /** Keys that differ only by `/` versus `\` read the same entry. */
  lemma SlashLikeKeysReadAlike(d: Disk, k1: string, k2: string, codec: Codec)
    requires SameFileName(k1, k2)
    ensures GetImage(d, k1, codec) == GetImage(d, k2, codec)
  {
    EscapeKeySameFileIff(k1, k2);
  }

  // ---------------------------------------------------------------- properties of saveImage

  /** Saving keeps the directory well formed. */
  lemma SavedWellFormed(d: Disk, img: Image, key: string, codec: Codec,
                        createDirOk: bool, removeOk: bool, writeOk: bool)
    requires WellFormed(d)
    ensures WellFormed(Saved(d, img, key, codec, createDirOk, removeOk, writeOk))
  {
    EscapeKeyEmptyIff(key);
    EscapeKeyHasNoSeparator(key);
  }

  /** With the empty key, saving changes nothing. */
  lemma SaveEmptyKeyChangesNothing(d: Disk, img: Image, codec: Codec,
                                   createDirOk: bool, removeOk: bool, writeOk: bool)
    ensures Saved(d, img, "", codec, createDirOk, removeOk, writeOk) == d
  {
  }

  /**
    Round trip: when encoding succeeds, the directory exists or is created and
    the write succeeds, the key's entry holds the encoding and `getImage` gives
    its decoding, whatever happened to the old entry.
   */
  lemma SaveThenGet(d: Disk, img: Image, key: string, codec: Codec, data: Bytes,
                    createDirOk: bool, removeOk: bool, writeOk: bool)
    requires key != "" && codec.encode(img) == Some(data)
    requires d.dirExists || createDirOk
    requires writeOk
    ensures var d' := Saved(d, img, key, codec, createDirOk, removeOk, writeOk);
      EscapeKey(key) in d'.files && d'.files[EscapeKey(key)] == data &&
      GetImage(d', key, codec) == codec.decode(data)
  {
    EscapeKeyEmptyIff(key);
  }

  /**
    Saving touches the directory flag and the key's own entry only: every other
    entry is kept with its bytes, and the directory exists afterwards exactly
    when it existed before or was created.
   */
  lemma SaveTouchesOnlyItsEntry(d: Disk, img: Image, key: string, codec: Codec,
                                createDirOk: bool, removeOk: bool, writeOk: bool)
    ensures var d' := Saved(d, img, key, codec, createDirOk, removeOk, writeOk);
      (d'.dirExists <==> d.dirExists || (key != "" && createDirOk)) &&
      forall name :: name != EscapeKey(key) ==>
        (name in d'.files <==> name in d.files) &&
        (name in d.files ==> d'.files[name] == d.files[name])
  {
    EscapeKeyEmptyIff(key);
  }

  /**
    When encoding gives nil nothing is written, but an old entry that decodes
    has already been removed (unless its removal failed).
   */
  lemma SaveWithoutEncoding(d: Disk, img: Image, key: string, codec: Codec,
                            createDirOk: bool, removeOk: bool, writeOk: bool)
    requires key != "" && codec.encode(img) == None
    ensures var name := EscapeKey(key);
      Saved(d, img, key, codec, createDirOk, removeOk, writeOk).files ==
        if name in d.files && codec.decode(d.files[name]).Some? && removeOk
        then d.files - {name}
        else d.files
  {
    EscapeKeyEmptyIff(key);
  }

  /**
    A failure to create the directory is only logged: the write is still
    attempted, and fails, so a missing directory stays missing and empty.
   */
  lemma SaveWithoutDirectory(d: Disk, img: Image, key: string, codec: Codec,
                             removeOk: bool, writeOk: bool)
    requires WellFormed(d) && !d.dirExists
    ensures Saved(d, img, key, codec, false, removeOk, writeOk) == d
  {
  }

  /** Keys that differ only by `/` versus `\` are saved to one and the same entry. */
  lemma SlashLikeKeysSaveAlike(d: Disk, img: Image, k1: string, k2: string, codec: Codec,
                               createDirOk: bool, removeOk: bool, writeOk: bool)
    requires SameFileName(k1, k2)
    ensures Saved(d, img, k1, codec, createDirOk, removeOk, writeOk) ==
            Saved(d, img, k2, codec, createDirOk, removeOk, writeOk)
  {
    EscapeKeySameFileIff(k1, k2);
  }

  // ---------------------------------------------------------------- properties of removeImage

  /** Removing keeps the directory well formed. */
  lemma RemovedWellFormed(d: Disk, key: string, codec: Codec, removeOk: bool)
    requires WellFormed(d)
    ensures WellFormed(Removed(d, key, codec, removeOk))
  {
  }

  /**
    `removeImage` changes the directory exactly when the key is not empty, its
    entry exists and decodes as an image, and the removal succeeds; it then
    deletes that entry and no other, and the key reads nothing afterwards.
   */
  lemma RemoveDeletesOnlyDecodableEntry(d: Disk, key: string, codec: Codec, removeOk: bool)
    ensures var name := EscapeKey(key);
      var deletes := key != "" && name in d.files && codec.decode(d.files[name]).Some? && removeOk;
      Removed(d, key, codec, removeOk) ==
        if deletes then d.(files := d.files - {name}) else d
    ensures var name := EscapeKey(key);
      key != "" && name in d.files && codec.decode(d.files[name]).Some? && removeOk ==>
        GetImage(Removed(d, key, codec, removeOk), key, codec) == None
  {
    EscapeKeyEmptyIff(key);
  }

  /** Removing a key that has no entry is a no-op, and the key still reads nothing. */
  lemma RemoveMissingKeyChangesNothing(d: Disk, key: string, codec: Codec, removeOk: bool)
    requires EscapeKey(key) !in d.files
    ensures Removed(d, key, codec, removeOk) == d
    ensures GetImage(d, key, codec) == None
  {
  }

  // ---------------------------------------------------------------- properties of removeImages

  /** Clearing keeps the directory well formed. */
  lemma ClearedWellFormed(d: Disk, listing: Option<seq<string>>, failAt: nat)
    requires WellFormed(d)
    ensures WellFormed(Cleared(d, listing, failAt))
  {
  }

  /** If the directory cannot be listed (in particular when it is missing), clearing changes nothing. */
  lemma ClearWithoutListingChangesNothing(d: Disk, listing: Option<seq<string>>, failAt: nat)
    requires IsListingOf(d, listing)
    requires listing.None? || !d.dirExists
    ensures Cleared(d, listing, failAt) == d
  {
  }

  /**
    When a removal throws at position `failAt` of the listing, the entries
    listed before it are gone and it and the ones after it remain, with their
    bytes; the directory itself stays.
   */
  lemma ClearStopsAtFailure(d: Disk, names: seq<string>, failAt: nat)
    requires IsListingOf(d, Some(names))
    ensures Cleared(d, Some(names), failAt).dirExists == d.dirExists
    ensures forall j :: 0 <= j < |names| ==>
      (names[j] in Cleared(d, Some(names), failAt).files <==> failAt <= j)
    ensures forall name :: name in Cleared(d, Some(names), failAt).files ==>
      name in d.files && Cleared(d, Some(names), failAt).files[name] == d.files[name]
  {
    var stop := if failAt < |names| then failAt else |names|;
    forall j | 0 <= j < |names|
      ensures names[j] in DeletedNames(names, failAt) <==> j < stop
    {
      if names[j] in names[..stop] {
        var k :| 0 <= k < stop && names[..stop][k] == names[j];
        assert names[k] == names[j];
      }
      if j < stop {
        assert names[..stop][j] == names[j];
      }
    }
  }

  /** Without a failing removal every entry is deleted, and no key reads anything afterwards. */
  lemma ClearWithoutFailureEmpties(d: Disk, names: seq<string>, failAt: nat, codec: Codec)
    requires IsListingOf(d, Some(names))
    requires |names| <= failAt
    ensures Cleared(d, Some(names), failAt).files == map[]
    ensures forall key :: GetImage(Cleared(d, Some(names), failAt), key, codec) == None
  {
    assert names[..|names|] == names;
    var d' := Cleared(d, Some(names), failAt);
    forall key ensures GetImage(d', key, codec) == None {
      GetImageDecodesEntry(d', key, codec);
    }
  }

  // ---------------------------------------------------------------- the store, updated in place

  /** The process-wide images directory, as the file manager sees it. */
  class ImageStore {
    var dirExists: bool
    var files: map<string, Bytes>

    function State(): Disk
      reads this
    {
      Disk(dirExists, files)
    }

    predicate Valid()
      reads this
    {
      WellFormed(State())
    }

    /** A fresh installation: no directory yet. */
    constructor ()
      ensures Valid() && State() == Disk(false, map[])
    {
      dirExists := false;
      files := map[];
    }

    /** `img.saveImage(forKey:)`. */
    method SaveImage(img: Image, forKey: string, codec: Codec,
                     createDirOk: bool, removeOk: bool, writeOk: bool)
      requires Valid()
      modifies this
      ensures Valid()
      ensures State() == Saved(old(State()), img, forKey, codec, createDirOk, removeOk, writeOk)
    {
      var key := EscapeKey(forKey);
      if IsKeyEmpty(key) {
        return;
      }
      // Create the directory if it is missing; a failure is logged and the write still attempted.
      if !dirExists && createDirOk {
        dirExists := true;
      }
      // Remove the old image if there is one; a failure is logged.
      if ImageAtPath(State(), key, codec).Some? && removeOk {
        files := files - {key};
      }
      var imageData := codec.encode(img);
      if imageData.Some? && writeOk && dirExists {
        files := files[key := imageData.value];
      }
      SavedWellFormed(old(State()), img, forKey, codec, createDirOk, removeOk, writeOk);
    }

    /** `UIImage.removeImage(forKey:)`. */
    method RemoveImage(forKey: string, codec: Codec, removeOk: bool)
      requires Valid()
      modifies this
      ensures Valid()
      ensures State() == Removed(old(State()), forKey, codec, removeOk)
    {
      var key := EscapeKey(forKey);
      if IsKeyEmpty(key) {
        return;
      }
      if ImageAtPath(State(), key, codec).Some? {
        if removeOk {
          files := files - {key};
        }
      }
    }

    /**
      `UIImage.removeImages()`: list the directory, then remove the entries in
      listing order; the first removal that throws (at index `failAt`) ends the loop.
     */
    method RemoveImages(listing: Option<seq<string>>, failAt: nat)
      requires Valid()
      requires IsListingOf(State(), listing)
      modifies this
      ensures Valid()
      ensures State() == Cleared(old(State()), listing, failAt)
    {
      if listing.None? {
        return;
      }
      var names := listing.value;
      var i := 0;
      while i < |names|
        invariant 0 <= i <= |names| && i <= failAt
        invariant dirExists == old(dirExists)
        invariant files == old(files) - (set name | name in names[..i])
      {
        if i == failAt {
          break;
        }
        assert names[i] in old(files);
        assert names[i] !in names[..i];
        assert names[..i + 1] == names[..i] + [names[i]];
        files := files - {names[i]};
        i := i + 1;
      }
      ClearedWellFormed(old(State()), listing, failAt);
    }
  }
}
