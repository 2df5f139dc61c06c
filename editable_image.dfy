/**
 * The in-place image editor of src/components/EditableImage.tsx: the image
 * at `src` is shown until it is double-clicked, then its URL is edited in a
 * text input; leaving the input hands the URL to the owner, unless the shown
 * image failed to load. Whether the browser can load a URL is outside the
 * model: the load and error events are calls.
 */
module EditableImage {
  import opened Options

  class Picture {
    /** The owner's image URL (the `src` property); the image element always shows this one. */
    var src: string
    var isEditing: bool
    /** The URL in the text input. */
    var url: string
    /** Whether the shown image last failed to load. */
    var error: bool

    constructor (src: string)
      ensures this.src == src && url == src && !isEditing && !error
    {
      this.src := src;
      url := src;
      isEditing := false;
      error := false;
    }

    /** A render with a new `src`: the image changes, the input's URL does not follow it. */
    method SrcChanged(newSrc: string)
      modifies this
      ensures src == newSrc && url == old(url) && isEditing == old(isEditing) && error == old(error)
    {
      src := newSrc;
    }

    /** The image element reports that `src` failed to load; it exists only while the input is closed. */
    method ImageError()
      requires !isEditing
      modifies this
      ensures error && src == old(src) && url == old(url) && !isEditing
    {
      error := true;
    }

    /** The image element reports that `src` loaded. */
    method ImageLoad()
      requires !isEditing
      modifies this
      ensures !error && src == old(src) && url == old(url) && !isEditing
    {
      error := false;
    }

    method DoubleClick()
      requires !isEditing
      modifies this
      ensures isEditing && src == old(src) && url == old(url) && error == old(error)
    {
      isEditing := true;
    }

    method Type(newUrl: string)
      requires isEditing
      modifies this
      ensures url == newUrl && isEditing && src == old(src) && error == old(error)
    {
      url := newUrl;
    }

    /**
     * The corrected input: typing a new URL clears the error flag, which
     * belonged to the old `src`, so the new URL can reach the owner.
     */
    method TypeClearingError(newUrl: string)
      requires isEditing
      modifies this
      ensures url == newUrl && isEditing && src == old(src) && !error
    {
      url := newUrl;
      error := false;
    }

    /** Leaving the input closes it; the owner receives the URL only when the shown image did not fail. */
    method Blur() returns (committed: Option<string>)
      requires isEditing
      modifies this
      ensures committed == if error then None else Some(url)
      ensures !isEditing && src == old(src) && url == old(url) && error == old(error)
    {
      isEditing := false;
      if !error {
        committed := Some(url);
      } else {
        committed := None;
      }
    }
  }

  /** Replacing a working image hands the typed URL to the owner. */
  method ReplaceWorkingImage(src: string, typed: string) returns (committed: Option<string>)
    ensures committed == Some(typed)
  {
    var p := new Picture(src);
    p.ImageLoad();
    p.DoubleClick();
    p.Type(typed);
    committed := p.Blur();
  }

  /**
   * A broken image cannot be replaced: the error flag belongs to `src`, and
   * `src` only changes when the owner receives a URL, which the flag
   * prevents. However often the URL is retyped, nothing reaches the owner
   * while the browser keeps failing to load `src`.
   */
  method BrokenImageStuck(src: string, attempts: seq<string>) returns (committed: seq<Option<string>>)
    ensures |committed| == |attempts|
    ensures forall i :: 0 <= i < |committed| ==> committed[i] == None
  {
    var p := new Picture(src);
    p.ImageError();
    committed := [];
    var i := 0;
    while i < |attempts|
      invariant 0 <= i <= |attempts| && |committed| == i
      invariant forall j :: 0 <= j < i ==> committed[j] == None
      invariant p.src == src && !p.isEditing && p.error
    {
      p.DoubleClick();
      p.Type(attempts[i]);
      var c := p.Blur();
      // The closed image is rendered again and the browser retries `src`, which still fails.
      p.ImageError();
      committed := committed + [c];
      i := i + 1;
    }
  }

  /** With the corrected input, a broken image is replaced by the first URL typed. */
  method ReplaceBrokenImage(src: string, typed: string) returns (committed: Option<string>)
    ensures committed == Some(typed)
  {
    var p := new Picture(src);
    p.ImageError();
    p.DoubleClick();
    p.TypeClearingError(typed);
    committed := p.Blur();
  }
}
