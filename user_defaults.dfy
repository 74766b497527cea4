/**
  The `UserDefaults` entry points: each one forwards to the image store, which
  is the process-wide images directory and not the defaults database itself.
 */
module UserDefaultsExtension {

  import opened Wrappers
  import opened ImageExtension

  class UserDefaults {
    /** The images directory every entry point forwards to. */
    const images: ImageStore

    constructor (images: ImageStore)
      ensures this.images == images
    {
      this.images := images;
    }

    /** `set(value:forKey:)`: the effect of `value.saveImage(forKey: key)`. */
    method Set(value: Image, key: string, codec: Codec, createDirOk: bool, removeOk: bool, writeOk: bool)
      requires images.Valid()
      modifies images
      ensures images.Valid()
      ensures images.State() == Saved(old(images.State()), value, key, codec, createDirOk, removeOk, writeOk)
    {
      images.SaveImage(value, key, codec, createDirOk, removeOk, writeOk);
    }

    /** `uiimage(forKey:)`: the image `getImage(forKey:)` reads; the store is left alone. */
    method UIImage(key: string, codec: Codec) returns (image: Option<Image>)
      ensures image == GetImage(images.State(), key, codec)
    {
      image := GetImage(images.State(), key, codec);
    }

    /** `removeImage(forKey:)`: the effect of `UIImage.removeImage(forKey: key)`. */
    method RemoveImage(key: string, codec: Codec, removeOk: bool)
      requires images.Valid()
      modifies images
      ensures images.Valid()
      ensures images.State() == Removed(old(images.State()), key, codec, removeOk)
    {
      images.RemoveImage(key, codec, removeOk);
    }

    /** `removeImages()`: the effect of `UIImage.removeImages()`. */
    method RemoveImages(listing: Option<seq<string>>, failAt: nat)
      requires images.Valid()
      requires IsListingOf(images.State(), listing)
      modifies images
      ensures images.Valid()
      ensures images.State() == Cleared(old(images.State()), listing, failAt)
    {
      images.RemoveImages(listing, failAt);
    }
  }
}
