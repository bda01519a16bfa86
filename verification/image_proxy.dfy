/** Lazy images: a proxy shows a placeholder until the real image is loaded,
    and loads it at most once. */
module Images {
  import opened Wrappers
  import opened Strings

  const PLACEHOLDER_PREFIX: string := "data:image/svg+xml;base64,"

  /** The Base64 text of the placeholder SVG drawn for a file name. */
  type SvgEncoder = string -> string

  /** `createPlaceholder`: a data URI holding the SVG for the file name. */
  function CreatePlaceholder(fileName: string, encode: SvgEncoder): (uri: string)
    ensures StartsWith(uri, PLACEHOLDER_PREFIX)
    ensures |uri| == |PLACEHOLDER_PREFIX| + |encode(fileName)|
  {
    PLACEHOLDER_PREFIX + encode(fileName)
  }

  /** The real image: its content is the Base64 text of the file's bytes. */
  class ImageFile {
    var fileName: string
    var filePath: string
    var content: string
    var loaded: bool

    constructor (fileName: string, filePath: string)
      ensures this.fileName == fileName && this.filePath == filePath
      ensures content == "" && !loaded
    {
      this.fileName := fileName;
      this.filePath := filePath;
      content := "";
      loaded := false;
    }

    /** `loadImage`: `read` is the file's Base64 text, or None when reading
        the file fails; a failure clears `loaded` and keeps the content. */
    method LoadImage(read: Option<string>)
      modifies this
      ensures fileName == old(fileName) && filePath == old(filePath)
      ensures loaded == read.Some?
      ensures content == (if read.Some? then read.value else old(content))
    {
      if read.Some? {
        content := read.value;
        loaded := true;
      } else {
        loaded := false;
      }
    }
  }

  class ImageProxy {
    const fileName: string
    const filePath: string
    var realImage: ImageFile?
    var placeholderContent: string
    var isRealImageLoaded: bool

    /** A new proxy is not loaded and shows its placeholder. */
    constructor (fileName: string, filePath: string, encode: SvgEncoder)
      ensures this.fileName == fileName && this.filePath == filePath
      ensures !IsLoaded() && realImage == null
      ensures placeholderContent == CreatePlaceholder(fileName, encode)
      ensures GetContent() == placeholderContent
    {
      this.fileName := fileName;
      this.filePath := filePath;
      isRealImageLoaded := false;
      realImage := null;
      placeholderContent := CreatePlaceholder(fileName, encode);
    }

    function IsLoaded(): bool
      reads this
    {
      isRealImageLoaded
    }

    /** `getContent`: the real image's content once loaded, else the placeholder. */
    function GetContent(): (c: string)
      reads this, realImage
      ensures !IsLoaded() ==> c == placeholderContent
      ensures IsLoaded() && realImage != null ==> c == realImage.content
    {
      if isRealImageLoaded && realImage != null then realImage.content else placeholderContent
    }

    /** `loadImage`: the first call creates and loads the real image and marks
        the proxy loaded, whether or not the file could be read; every later
        call changes nothing. */
    method LoadImage(read: Option<string>)
      modifies this
      ensures IsLoaded() && placeholderContent == old(placeholderContent)
      ensures old(IsLoaded()) ==> realImage == old(realImage) && GetContent() == old(GetContent())
      ensures !old(IsLoaded()) ==>
        && realImage != null && fresh(realImage)
        && realImage.fileName == fileName && realImage.filePath == filePath
        && realImage.loaded == read.Some?
        && GetContent() == (if read.Some? then read.value else "")
    {
      if !isRealImageLoaded {
        realImage := new ImageFile(fileName, filePath);
        realImage.LoadImage(read);
        isRealImageLoaded := true;
      }
    }

    /** `display`: exactly the effect of `loadImage`. */
    method Display(read: Option<string>)
      modifies this
      ensures IsLoaded() && placeholderContent == old(placeholderContent)
      ensures old(IsLoaded()) ==> realImage == old(realImage) && GetContent() == old(GetContent())
      ensures !old(IsLoaded()) ==>
        && realImage != null && fresh(realImage)
        && realImage.fileName == fileName && realImage.filePath == filePath
        && realImage.loaded == read.Some?
        && GetContent() == (if read.Some? then read.value else "")
    {
      LoadImage(read);
    }
  }
}
