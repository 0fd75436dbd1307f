/**
 * The `cloudinary_thumb` template filter (products/templatetags/thumbs.py):
 * a Cloudinary delivery URL gets transformation options inserted right after
 * its first `/upload/`, unless options are already there; any other URL is
 * returned as it is.
 */
module Thumbs {
  import opened Wrappers
  import opened Text

  const Marker: string := "/upload/"
  const CloudinaryHost: string := "res.cloudinary.com"

  /** The filter's default `options` argument. */
  const DefaultOptions: string := "w_600,h_450,c_fill,f_auto,q_auto"

  /** The piece `url.split(marker)[1]` would be for `url[i + |marker|..]`: the text up to the next marker. */
  function FirstPiece(s: string): string {
    Split(s, Marker)[0]
  }

  /** Options already present: the text after `/upload/` starts with a crop or a width. */
  predicate HasOptions(tail: string) {
    StartsWith(tail, "c_") || StartsWith(tail, "w_")
  }

  /**
   * `cloudinary_thumb(url, options)`. The `try`/`except` of the filter never
   * fires on strings, so the model has no error path.
   */
  function CloudinaryThumb(url: string, options: string): string {
    if url == "" then url
    else if Contains(url, Marker) && Contains(url, CloudinaryHost) then
      var parts := Split(url, Marker);
      var tail := parts[1];
      if !HasOptions(tail) then parts[0] + Marker + options + "/" + tail else url
    else url
  }

  /** An empty url comes back unchanged. */
  lemma EmptyUrlUnchanged(options: string)
    ensures CloudinaryThumb("", options) == ""
  {
  }

  /** A url without `/upload/` or without the Cloudinary host comes back unchanged. */
  lemma NonCloudinaryUnchanged(url: string, options: string)
    requires !Contains(url, Marker) || !Contains(url, CloudinaryHost)
    ensures CloudinaryThumb(url, options) == url
  {
  }

  /** Splitting at the first marker: the first piece is what precedes it, the second is the first piece of the rest. */
  lemma SplitAtFirst(url: string, i: nat)
    requires IndexOf(url, Marker) == Some(i)
    ensures |Split(url, Marker)| >= 2
    ensures Split(url, Marker)[0] == url[..i]
    ensures Split(url, Marker)[1] == FirstPiece(url[i + |Marker|..])
  {
  }

  /**
   * The first piece of `s` is a prefix of `s` free of the marker, and it
   * runs to the end of `s` or to the next marker.
   */
  lemma FirstPieceSpec(s: string)
    ensures StartsWith(s, FirstPiece(s))
    ensures !Contains(FirstPiece(s), Marker)
    ensures FirstPiece(s) == s || OccursAt(s, Marker, |FirstPiece(s)|)
  {
    SplitPiecesFree(s, Marker);
    assert FirstPiece(s) in Split(s, Marker);
  }

  /**
   * On a Cloudinary url, with `i` the first `/upload/`: the url is
   * `url[..i] + "/upload/" + tail + rest`, where `tail` runs to the next
   * `/upload/` or the end; the filter inserts `options + "/"` right after the
   * first marker and drops `rest`, unless `tail` already starts with `c_` or `w_`.
   */
  lemma RewriteAfterFirstMarker(url: string, options: string)
    requires Contains(url, Marker) && Contains(url, CloudinaryHost)
    ensures var i := IndexOf(url, Marker).value;
      var tail := FirstPiece(url[i + |Marker|..]);
      && url[i..i + |Marker|] == Marker
      && StartsWith(url[i + |Marker|..], tail)
      && CloudinaryThumb(url, options)
           == if HasOptions(tail) then url else url[..i] + Marker + options + "/" + tail
  {
    var i := IndexOf(url, Marker).value;
    SplitAtFirst(url, i);
    FirstPieceSpec(url[i + |Marker|..]);
  }

  /**
   * The text after a second `/upload/` does not survive: for
   * `prefix + "/upload/" + tail + "/upload/" + rest`, where the two markers
   * shown are the first two, the result ends with `tail` whatever `rest` is.
   */
  lemma SecondMarkerDropped(prefix: string, tail: string, rest: string, options: string)
    requires IndexOf(prefix + Marker, Marker) == Some(|prefix|)
    requires IndexOf(tail + Marker + rest, Marker) == Some(|tail|)
    requires Contains(prefix + Marker + tail + Marker + rest, CloudinaryHost)
    requires !HasOptions(tail)
    ensures CloudinaryThumb(prefix + Marker + tail + Marker + rest, options) == prefix + Marker + options + "/" + tail
  {
    var url := prefix + Marker + tail + Marker + rest;
    assert url == prefix + Marker + (tail + Marker + rest);
    MarkerAfterPrefix(prefix, tail + Marker + rest);
    FirstPieceBeforeMarker(tail, rest);
    RewriteAfterFirstMarker(url, options);
  }

  /** A prefix free of the marker, then the marker: that is the first marker of anything after. */
  lemma MarkerAfterPrefix(prefix: string, after: string)
    requires IndexOf(prefix + Marker, Marker) == Some(|prefix|)
    ensures var url := prefix + Marker + after;
      && IndexOf(url, Marker) == Some(|prefix|)
      && url[..|prefix|] == prefix
      && url[|prefix| + |Marker|..] == after
  {
    var url := prefix + Marker + after;
    var m := |prefix| + |Marker|;
    assert url[..m] == (prefix + Marker)[..m];
    IndexOfSharedPrefix(prefix + Marker, url, Marker, |prefix|);
  }

  /** The first piece of `tail + "/upload/" + rest` is `tail` when that marker is the first. */
  lemma FirstPieceBeforeMarker(tail: string, rest: string)
    requires IndexOf(tail + Marker + rest, Marker) == Some(|tail|)
    ensures FirstPiece(tail + Marker + rest) == tail
  {
    SplitAtFirst(tail + Marker + rest, |tail|);
    assert (tail + Marker + rest)[..|tail|] == tail;
  }

  /** Text starting with two non-slash characters keeps them at the front of its first piece. */
  lemma FirstPieceKeepsFront(s: string)
    requires |s| >= 2 && s[0] != '/' && s[1] != '/'
    ensures StartsWith(FirstPiece(s), s[..2])
  {
    match IndexOf(s, Marker)
    case None =>
    case Some(j) =>
      assert s[j..j + |Marker|] == Marker;
      assert s[j] == '/';
      assert FirstPiece(s) == s[..j];
  }

  /** Whether options are present depends on the first two characters only. */
  lemma HasOptionsByFront(a: string, b: string)
    requires |a| >= 2 && |b| >= 2 && a[..2] == b[..2]
    ensures HasOptions(a) <==> HasOptions(b)
  {
  }

  /** Marked options start with two characters, neither of them a slash. */
  lemma OptionsFront(options: string)
    requires HasOptions(options)
    ensures |options| >= 2 && options[0] != '/' && options[1] != '/'
  {
    if StartsWith(options, "c_") {
      assert options[..2] == "c_";
    } else {
      assert options[..2] == "w_";
    }
  }

  /** Marked options stay at the front of the piece they start. */
  lemma MarkedPiece(options: string, tail: string)
    requires HasOptions(options)
    ensures HasOptions(FirstPiece(options + "/" + tail))
  {
    OptionsFront(options);
    var after := options + "/" + tail;
    assert after[..2] == options[..2];
    FirstPieceKeepsFront(after);
    var piece := FirstPiece(after);
    assert |piece| >= 2 && piece[..2] == options[..2];
    HasOptionsByFront(piece, options);
  }

  /** Options marked with `w_` or `c_` are what a second pass finds after the first marker. */
  lemma SecondPassSeesOptions(r: string, i: nat, options: string, tail: string)
    requires IndexOf(r, Marker) == Some(i)
    requires i + |Marker| <= |r| && r[i + |Marker|..] == options + "/" + tail
    requires HasOptions(options)
    ensures HasOptions(Split(r, Marker)[1])
  {
    SplitAtFirst(r, i);
    MarkedPiece(options, tail);
  }

  /** Rewriting after the first marker leaves that marker the first one. */
  lemma RewriteKeepsFirstMarker(url: string, i: nat, inserted: string)
    requires IndexOf(url, Marker) == Some(i)
    ensures var r := url[..i] + Marker + inserted;
      && IndexOf(r, Marker) == Some(i)
      && r[i + |Marker|..] == inserted
  {
    var m := i + |Marker|;
    var r := url[..i] + Marker + inserted;
    assert url[i..m] == Marker;
    assert r[..m] == url[..m] by {
      assert url[..m] == url[..i] + url[i..m];
    }
    IndexOfSharedPrefix(url, r, Marker, i);
    assert r[m..] == inserted;
  }

  /** A url whose text after the first marker already starts with options comes back unchanged. */
  lemma MarkedUrlUnchanged(url: string, options: string)
    requires IndexOf(url, Marker).Some?
    requires HasOptions(Split(url, Marker)[1])
    ensures CloudinaryThumb(url, options) == url
  {
  }

  /**
   * When the options themselves start with `w_` or `c_`, the filter is
   * idempotent: a second pass finds the inserted options and changes nothing.
   */
  lemma IdempotentWhenOptionsMarked(url: string, options: string)
    requires HasOptions(options)
    ensures CloudinaryThumb(CloudinaryThumb(url, options), options) == CloudinaryThumb(url, options)
  {
    if url != "" && Contains(url, Marker) && Contains(url, CloudinaryHost) {
      RewriteAfterFirstMarker(url, options);
      var i := IndexOf(url, Marker).value;
      var tail := FirstPiece(url[i + |Marker|..]);
      if !HasOptions(tail) {
        assert CloudinaryThumb(url, options) == url[..i] + Marker + options + "/" + tail;
        RewrittenUrlStable(url, i, options, tail);
      }
    }
  }

  /** The url the first pass builds comes back unchanged from a second pass. */
  lemma RewrittenUrlStable(url: string, i: nat, options: string, tail: string)
    requires IndexOf(url, Marker) == Some(i)
    requires HasOptions(options)
    ensures var r := url[..i] + Marker + options + "/" + tail;
      CloudinaryThumb(r, options) == r
  {
    var r := url[..i] + Marker + (options + "/" + tail);
    assert r == url[..i] + Marker + options + "/" + tail;
    if Contains(r, CloudinaryHost) {
      RewriteKeepsFirstMarker(url, i, options + "/" + tail);
      SecondPassSeesOptions(r, i, options, tail);
      MarkedUrlUnchanged(r, options);
    }
  }

  /** With the default options (`w_600,...`) the filter is idempotent. */
  lemma DefaultOptionsIdempotent(url: string)
    ensures CloudinaryThumb(CloudinaryThumb(url, DefaultOptions), DefaultOptions)
         == CloudinaryThumb(url, DefaultOptions)
  {
    assert DefaultOptions[..2] == "w_";
    IdempotentWhenOptionsMarked(url, DefaultOptions);
  }
}
