/**
  `UIImageView.loadCachedImage`: show the cached image at once, and run the
  loader when the cache misses or when updates are asked for; a loaded image
  replaces the shown one and is saved under the key.

  The loader's completion is asynchronous in the source. Here a load is two
  steps: `LoadCachedImage` (the synchronous part, which says whether the loader
  was started) and `LoaderCompleted` (the completion handler, called once with
  the loader's result). `StartLoad` and `CompleteLoad` give the state each step
  leaves.
 */
module ImageViewExtension {

  import opened Wrappers
  import opened KeyEscaping
  import opened ImageExtension

  /** What the synchronous step leaves: the image shown, and whether the loader was started. */
  datatype Started = Started(shown: Option<Image>, loaderInvoked: bool)

  /** What the completion handler leaves: the image shown, and the images directory. */
  datatype Completed = Completed(shown: Option<Image>, disk: Disk)

  /** The synchronous step of `loadCachedImage`, from the image shown before and the directory. */
  function StartLoad(shown: Option<Image>, d: Disk, key: string, checkForUpdates: bool,
                     codec: Codec): Started
  {
    match InitForKey(d, key, codec)
    case Some(cached) => Started(Some(cached), checkForUpdates)
    case None => Started(shown, true)
  }

  /** The completion handler, given the loader's result `loaded` (nil on failure). */
  function CompleteLoad(shown: Option<Image>, d: Disk, key: string, loaded: Option<Image>,
                        codec: Codec, createDirOk: bool, removeOk: bool, writeOk: bool): Completed
  {
    match loaded
    case None => Completed(shown, d)
    case Some(image) => Completed(Some(image), Saved(d, image, key, codec, createDirOk, removeOk, writeOk))
  }

  /** The result `loadImage(url:)` hands to its completion handler: the download decoded, nil if either fails. */
  function DownloadedImage(download: Option<Bytes>, codec: Codec): Option<Image> {
    match download
    case None => None
    case Some(data) => codec.decode(data)
  }

  /** The consumer: an image view whose `image` the loads assign. */
  class ImageView {
    var image: Option<Image>

    constructor ()
      ensures image == None
    {
      image := None;
    }

    /** `loadCachedImage(withKey:checkForUpdates:withLoader:)`, up to the loader's completion. */
    method LoadCachedImage(key: string, checkForUpdates: bool, store: ImageStore, codec: Codec)
      returns (loaderInvoked: bool)
      modifies this
      ensures Started(image, loaderInvoked) ==
              StartLoad(old(image), store.State(), key, checkForUpdates, codec)
    {
      var cached := InitForKey(store.State(), key, codec);
      if cached.Some? {
        image := cached;
        loaderInvoked := checkForUpdates;
      } else {
        loaderInvoked := true;
      }
    }

    /** The completion handler `loadCachedImage(withKey:...)` gives its loader. */
    method LoaderCompleted(key: string, loaded: Option<Image>, store: ImageStore, codec: Codec,
                           createDirOk: bool, removeOk: bool, writeOk: bool)
      requires store.Valid()
      modifies this, store
      ensures store.Valid()
      ensures Completed(image, store.State()) ==
              CompleteLoad(old(image), old(store.State()), key, loaded, codec, createDirOk, removeOk, writeOk)
    {
      if loaded.Some? {
        image := loaded;
        store.SaveImage(image.value, key, codec, createDirOk, removeOk, writeOk);
      }
    }

    /** `loadCachedImage(withUrl:checkForUpdates:)`, up to the download's completion; the URL is the key. */
    method LoadCachedImageWithUrl(url: string, checkForUpdates: bool, store: ImageStore, codec: Codec)
      returns (downloadStarted: bool)
      modifies this
      ensures Started(image, downloadStarted) ==
              StartLoad(old(image), store.State(), url, checkForUpdates, codec)
    {
      var cached := InitForKey(store.State(), url, codec);
      if cached.Some? {
        image := cached;
        downloadStarted := checkForUpdates;
      } else {
        downloadStarted := true;
      }
    }

    /**
      The completion of `loadImage(url:)` followed by the handler
      `loadCachedImage(withUrl:...)` gives it; `download` is nil when the
      request failed.
     */
    method DownloadCompleted(url: string, download: Option<Bytes>, store: ImageStore, codec: Codec,
                             createDirOk: bool, removeOk: bool, writeOk: bool)
      requires store.Valid()
      modifies this, store
      ensures store.Valid()
      ensures Completed(image, store.State()) ==
              CompleteLoad(old(image), old(store.State()), url, DownloadedImage(download, codec),
                           codec, createDirOk, removeOk, writeOk)
    {
      var loaded := if download.Some? then codec.decode(download.value) else None;
      if loaded.Some? {
        image := loaded;
        store.SaveImage(image.value, url, codec, createDirOk, removeOk, writeOk);
      }
    }
  }

  // ---------------------------------------------------------------- properties of a load

  /** A hit without updates shows the cached image and never starts the loader. */
  lemma HitWithoutUpdates(shown: Option<Image>, d: Disk, key: string, codec: Codec, cached: Image)
    requires GetImage(d, key, codec) == Some(cached)
    ensures StartLoad(shown, d, key, false, codec) == Started(Some(cached), false)
  {
    InitForKeyIsGetImage(d, key, codec);
  }

  /**
    A hit with updates shows the cached image first and starts the loader;
    when it succeeds with `update` (and the save goes through) the view shows
    `update` and the key's entry holds its encoding.
   */
  lemma HitWithSuccessfulUpdate(shown: Option<Image>, d: Disk, key: string, codec: Codec,
                                cached: Image, update: Image, data: Bytes,
                                createDirOk: bool, removeOk: bool, writeOk: bool)
    requires GetImage(d, key, codec) == Some(cached)
    requires codec.encode(update) == Some(data) && (d.dirExists || createDirOk) && writeOk
    ensures StartLoad(shown, d, key, true, codec) == Started(Some(cached), true)
    ensures var done := CompleteLoad(Some(cached), d, key, Some(update), codec, createDirOk, removeOk, writeOk);
      done.shown == Some(update) &&
      EscapeKey(key) in done.disk.files && done.disk.files[EscapeKey(key)] == data &&
      GetImage(done.disk, key, codec) == codec.decode(data)
  {
    InitForKeyIsGetImage(d, key, codec);
    EmptyKeyReadsNothing(d, codec);
    SaveThenGet(d, update, key, codec, data, createDirOk, removeOk, writeOk);
  }

  /**
    A miss (no entry, or bytes that do not decode) leaves the view as it was
    and starts the loader whatever `checkForUpdates` says.
   */
  lemma MissAlwaysLoads(shown: Option<Image>, d: Disk, key: string, checkForUpdates: bool, codec: Codec)
    requires key == "" || EscapeKey(key) !in d.files || codec.decode(d.files[EscapeKey(key)]).None?
    ensures StartLoad(shown, d, key, checkForUpdates, codec) == Started(shown, true)
  {
    GetImageDecodesEntry(d, key, codec);
    InitForKeyIsGetImage(d, key, codec);
  }

  /**
    After a miss, a successful load is the first image the view is given, and
    (when the save goes through) the key's entry holds its encoding.
   */
  lemma MissThenSuccessfulLoad(shown: Option<Image>, d: Disk, key: string, checkForUpdates: bool,
                               codec: Codec, loaded: Image, data: Bytes,
                               createDirOk: bool, removeOk: bool, writeOk: bool)
    requires key != "" && GetImage(d, key, codec) == None
    requires codec.encode(loaded) == Some(data) && (d.dirExists || createDirOk) && writeOk
    ensures StartLoad(shown, d, key, checkForUpdates, codec) == Started(shown, true)
    ensures var done := CompleteLoad(shown, d, key, Some(loaded), codec, createDirOk, removeOk, writeOk);
      done.shown == Some(loaded) &&
      EscapeKey(key) in done.disk.files && done.disk.files[EscapeKey(key)] == data &&
      GetImage(done.disk, key, codec) == codec.decode(data)
  {
    InitForKeyIsGetImage(d, key, codec);
    SaveThenGet(d, loaded, key, codec, data, createDirOk, removeOk, writeOk);
  }

  /**
    A failed load changes nothing: after a hit the view keeps the cached
    image, and the key still reads that image.
   */
  lemma FailedUpdateKeepsCachedImage(shown: Option<Image>, d: Disk, key: string, checkForUpdates: bool,
                                     codec: Codec, cached: Image,
                                     createDirOk: bool, removeOk: bool, writeOk: bool)
    requires GetImage(d, key, codec) == Some(cached)
    ensures var started := StartLoad(shown, d, key, checkForUpdates, codec);
      var done := CompleteLoad(started.shown, d, key, None, codec, createDirOk, removeOk, writeOk);
      done == Completed(Some(cached), d) && GetImage(done.disk, key, codec) == Some(cached)
  {
    InitForKeyIsGetImage(d, key, codec);
  }

  /**
    The empty key always misses, so the loader runs; a loaded image is shown
    but nothing is saved.
   */
  lemma EmptyKeyLoadsButNeverSaves(shown: Option<Image>, d: Disk, checkForUpdates: bool,
                                   loaded: Option<Image>, codec: Codec,
                                   createDirOk: bool, removeOk: bool, writeOk: bool)
    ensures StartLoad(shown, d, "", checkForUpdates, codec) == Started(shown, true)
    ensures CompleteLoad(shown, d, "", loaded, codec, createDirOk, removeOk, writeOk) ==
            Completed(if loaded.Some? then loaded else shown, d)
  {
    SaveEmptyKeyChangesNothing(d, if loaded.Some? then loaded.value else Image([]), codec,
                               createDirOk, removeOk, writeOk);
  }
}
