/**
 * modules/screenshots.py: the target list for the screenshot tool, the
 * thumbnails made from its screenshots, and the gallery page that links
 * each thumbnail back to its screenshot.
 */
module Screenshots {
  import opened Common
  import opened Text

  // ---------------------------------------------------------------------
  // Targets
  // ---------------------------------------------------------------------

  /** The lines written for one stripped input line: a host gets https and http, a URL is kept. */
  function Expand(url: string): (r: seq<string>)
    ensures !IsHostLine(url) ==> r == []
    ensures IsHostLine(url) && HasScheme(url) ==> r == [url]
    ensures IsHostLine(url) && !HasScheme(url) ==> r == ["https://" + url, "http://" + url]
  {
    if !IsHostLine(url) then []
    else if HasScheme(url) then [url]
    else ["https://" + url, "http://" + url]
  }

  /** What one input line contributes to the prepared file. */
  function PreparedLine(line: string): seq<string>
  {
    Expand(Strip(line))
  }

  /** The lines `prepare_urls` writes for `lines`, in input order. */
  function Prepared(lines: seq<string>): seq<string>
  {
    FlatMap(lines, PreparedLine)
  }

  /**
   * `prepare_urls`: the input is opened before the output (`outputOk`), so
   * a missing input writes nothing; a read that raises keeps what was
   * written and returns no file.
   */
  method PrepareUrls(input: FileState, outputOk: bool) returns (written: seq<string>, ok: bool)
    ensures ok <==> input.Readable? && outputOk
    ensures written == if input.Exists() && outputOk then Prepared(input.LinesSeen()) else []
  {
    written := [];
    if !input.Exists() || !outputOk {
      return written, false;
    }
    var lines := input.LinesSeen();
    var j := 0;
    while j < |lines|
      invariant 0 <= j <= |lines|
      invariant written == Prepared(lines[..j])
    {
      var url := Strip(lines[j]);
      if url != [] && url[0] != '#' && '.' in url {
        if !(StartsWith(url, "http://") || StartsWith(url, "https://")) {
          written := written + ["https://" + url];
          written := written + ["http://" + url];
        } else {
          written := written + [url];
        }
      }
      FlatMapStep(lines, j, PreparedLine);
      j := j + 1;
    }
    assert lines[..j] == lines;
    ok := input.Readable?;
  }

  /** Every written line carries an http(s) scheme and would pass the filter again, unchanged. */
  lemma {:induction false} PreparedShape(lines: seq<string>)
    ensures forall x :: x in Prepared(lines) ==> HasScheme(x) && IsHostLine(x) && Stripped(x)
  {
    if lines != [] {
      var init := lines[..|lines| - 1];
      PreparedShape(init);
      PreparedLineShape(lines[|lines| - 1]);
      assert Prepared(lines) == Prepared(init) + PreparedLine(lines[|lines| - 1]);
    }
  }

  lemma PreparedLineShape(line: string)
    ensures |PreparedLine(line)| <= 2
    ensures forall x :: x in PreparedLine(line) ==> HasScheme(x) && IsHostLine(x) && Stripped(x)
  {
    var url := Strip(line);
    if IsHostLine(url) && !HasScheme(url) {
      PrefixKeepsHost("https://", url);
      PrefixKeepsHost("http://", url);
    }
  }

  lemma PrefixKeepsHost(scheme: string, url: string)
    requires scheme == "https://" || scheme == "http://"
    requires IsHostLine(url) && Stripped(url)
    ensures HasScheme(scheme + url) && IsHostLine(scheme + url) && Stripped(scheme + url)
  {
    PrefixedHostLine(scheme, url);
    assert (scheme + url)[..|scheme|] == scheme;
  }

  /** A line that is already a prepared target is written back unchanged. */
  lemma PreparedTarget(x: string)
    requires HasScheme(x) && IsHostLine(x) && Stripped(x)
    ensures Prepared([x]) == [x]
  {
    FlatMapSingle(x, PreparedLine);
    StripStripped(x);
  }

  /** Preparing an already prepared list gives it back unchanged. */
  lemma {:induction false} PreparedIdempotent(lines: seq<string>)
    ensures Prepared(Prepared(lines)) == Prepared(lines)
  {
    if lines != [] {
      var init := lines[..|lines| - 1];
      PreparedIdempotent(init);
      PreparedShape(lines);
      var tail := PreparedLine(lines[|lines| - 1]);
      PreparedLineShape(lines[|lines| - 1]);
      assert Prepared(lines) == Prepared(init) + tail;
      FlatMapConcat(Prepared(init), tail, PreparedLine);
      if |tail| == 1 {
        assert tail == [tail[0]];
        PreparedTarget(tail[0]);
      } else if |tail| == 2 {
        assert tail == [tail[0]] + [tail[1]];
        FlatMapConcat([tail[0]], [tail[1]], PreparedLine);
        PreparedTarget(tail[0]);
        PreparedTarget(tail[1]);
      }
    }
  }

  /** Where the screenshot tool reads its targets from. */
  datatype TargetFile =
    | HttpxResults
    | UrlsForScreenshots(urls: seq<string>)

  /** `get_target_file`: the prober's results, else the prepared subdomain list, else nothing. */
  method GetTargetFile(httpx: FileState, subdomains: FileState, outputOk: bool) returns (target: Option<TargetFile>)
    ensures httpx.Exists() ==> target == Some(HttpxResults)
    ensures !httpx.Exists() && subdomains.Exists() ==>
      (target.Some? <==> subdomains.Readable? && outputOk) &&
      (target.Some? ==> target.value == UrlsForScreenshots(Prepared(subdomains.lines)))
    ensures !httpx.Exists() && !subdomains.Exists() ==> target == None
  {
    if httpx.Exists() {
      return Some(HttpxResults);
    }
    if subdomains.Exists() {
      var written, ok := PrepareUrls(subdomains, outputOk);
      if ok {
        return Some(UrlsForScreenshots(written));
      }
      return None;
    }
    return None;
  }

  // ---------------------------------------------------------------------
  // Thumbnails
  // ---------------------------------------------------------------------

  function ThumbName(file: string): (t: string)
    ensures StartsWith(t, "thumb_") && EndsWith(t, file)
    ensures |t| == |file| + 6
  {
    var t := "thumb_" + file;
    assert t[6..] == file;
    t
  }

  /** Different screenshots get different thumbnails. */
  lemma ThumbNameInjective(a: string, b: string)
    requires ThumbName(a) == ThumbName(b)
    ensures a == b
  {
    assert a == ThumbName(a)[6..] && b == ThumbName(b)[6..];
  }

  /** Whether `f` is an image whose thumbnail is made, and whether it is an image whose thumbnail fails. */
  function Thumbnailed(saves: string -> bool): string -> bool
  {
    f => IsImage(f) && saves(f)
  }

  function NotThumbnailed(saves: string -> bool): string -> bool
  {
    f => IsImage(f) && !saves(f)
  }

  /** The screenshots whose thumbnail `saves` says can be made, and those it says cannot. */
  ghost function Saved(files: set<string>, saves: string -> bool): set<string>
  {
    Filter(files, Thumbnailed(saves))
  }

  ghost function Failed(files: set<string>, saves: string -> bool): set<string>
  {
    Filter(files, NotThumbnailed(saves))
  }

  ghost function ImagesIn(files: set<string>): set<string>
  {
    Filter(files, IsImage)
  }

  /** Every image is either saved or failed, never both. */
  lemma SavedFailedPartition(files: set<string>, saves: string -> bool)
    ensures |Saved(files, saves)| + |Failed(files, saves)| == |ImagesIn(files)|
  {
    assert Saved(files, saves) + Failed(files, saves) == ImagesIn(files);
    assert Saved(files, saves) * Failed(files, saves) == {};
  }

  /** The two counters and the thumbnail files created so far. */
  datatype Tally = Tally(thumbCount: nat, failCount: nat, created: set<string>)

  /** Looking at one more listed file. */
  function TallyFile(t: Tally, file: string, saves: string -> bool): Tally
  {
    if !IsImage(file) then t
    else if saves(file) then Tally(t.thumbCount + 1, t.failCount, t.created + {ThumbName(file)})
    else Tally(t.thumbCount, t.failCount + 1, t.created)
  }

  /** The tally after looking at every file of `listing`, in listing order. */
  function TallyOf(listing: seq<string>, saves: string -> bool): Tally
    decreases |listing|
  {
    if listing == [] then Tally(0, 0, {})
    else TallyFile(TallyOf(listing[..|listing| - 1], saves), listing[|listing| - 1], saves)
  }

  predicate Distinct(s: seq<string>)
  {
    forall i, j :: 0 <= i < j < |s| ==> s[i] != s[j]
  }

  /**
   * Over a listing without repeated names (a directory listing has none),
   * the counters are the numbers of images whose thumbnail is made and of
   * images whose thumbnail fails, which together are all the images, and
   * the created files are the thumbnail names of exactly the successes.
   */
  lemma {:induction false} TallyOfSpec(listing: seq<string>, saves: string -> bool)
    requires Distinct(listing)
    ensures var t := TallyOf(listing, saves);
            var files := set f | f in listing;
            && t.thumbCount == |Saved(files, saves)|
            && t.failCount == |Failed(files, saves)|
            && t.thumbCount + t.failCount == |ImagesIn(files)|
            && t.created == Image(Saved(files, saves), ThumbName)
    decreases |listing|
  {
    var files := set f | f in listing;
    if listing == [] {
      assert files == {};
      TalliedNothing(saves);
    } else {
      var init := listing[..|listing| - 1];
      var last := listing[|listing| - 1];
      var done := set f | f in init;
      TallyOfSpec(init, saves);
      assert files == done + {last} by { assert listing == init + [last]; }
      TallyFileSpec(done, last, saves, TallyOf(init, saves));
    }
    SavedFailedPartition(files, saves);
  }

  lemma TalliedNothing(saves: string -> bool)
    ensures |Saved({}, saves)| == 0 && |Failed({}, saves)| == 0
    ensures Image(Saved({}, saves), ThumbName) == {}
  {
    assert Saved({}, saves) == {} && Failed({}, saves) == {};
  }

  /** One more file, not looked at before, moves the tally of the files looked at. */
  lemma TallyFileSpec(done: set<string>, f: string, saves: string -> bool, t: Tally)
    requires f !in done
    requires t.thumbCount == |Saved(done, saves)| && t.failCount == |Failed(done, saves)|
    requires t.created == Image(Saved(done, saves), ThumbName)
    ensures TallyFile(t, f, saves).thumbCount == |Saved(done + {f}, saves)|
    ensures TallyFile(t, f, saves).failCount == |Failed(done + {f}, saves)|
    ensures TallyFile(t, f, saves).created == Image(Saved(done + {f}, saves), ThumbName)
  {
    TallyCounts(done, f, saves, t);
    TallyCreated(done, f, saves, t);
  }

  lemma TallyCounts(done: set<string>, f: string, saves: string -> bool, t: Tally)
    requires f !in done
    requires t.thumbCount == |Saved(done, saves)| && t.failCount == |Failed(done, saves)|
    ensures TallyFile(t, f, saves).thumbCount == |Saved(done + {f}, saves)|
    ensures TallyFile(t, f, saves).failCount == |Failed(done + {f}, saves)|
  {
    FilterAdd(done, f, Thumbnailed(saves));
    FilterAdd(done, f, NotThumbnailed(saves));
  }

  lemma TallyCreated(done: set<string>, f: string, saves: string -> bool, t: Tally)
    requires f !in done
    requires t.created == Image(Saved(done, saves), ThumbName)
    ensures TallyFile(t, f, saves).created == Image(Saved(done + {f}, saves), ThumbName)
  {
    ImageFilterAdd(done, f, Thumbnailed(saves), ThumbName);
  }

  /** The body of the listing loop for one file. */
  method ThumbnailOne(file: string, saves: string -> bool, thumbCount: nat, failCount: nat, thumbsAfter: set<string>)
    returns (thumbCount': nat, failCount': nat, thumbsAfter': set<string>)
    ensures Tally(thumbCount', failCount', thumbsAfter') == TallyFile(Tally(thumbCount, failCount, thumbsAfter), file, saves)
  {
    thumbCount', failCount', thumbsAfter' := thumbCount, failCount, thumbsAfter;
    if EndsWith(file, ".png") || EndsWith(file, ".jpg") {
      if saves(file) {
        thumbsAfter' := thumbsAfter' + {"thumb_" + file};
        thumbCount' := thumbCount' + 1;
      } else {
        failCount' := failCount' + 1;
      }
    }
  }

  /**
   * `generate_thumbnails` over the listing `files` of the screenshots
   * directory, in the order the listing yields. `saves(f)` says whether
   * opening, shrinking and saving `f` succeeds. The counters are those of
   * `TallyOf`, and the thumbnails directory gains its created files.
   */
  method GenerateThumbnails(files: seq<string>, saves: string -> bool, thumbs: set<string>)
    returns (thumbCount: nat, failCount: nat, thumbsAfter: set<string>)
    ensures thumbCount == TallyOf(files, saves).thumbCount
    ensures failCount == TallyOf(files, saves).failCount
    ensures thumbsAfter == thumbs + TallyOf(files, saves).created
  {
    thumbCount, failCount, thumbsAfter := 0, 0, thumbs;
    var j := 0;
    while j < |files|
      invariant 0 <= j <= |files|
      invariant thumbCount == TallyOf(files[..j], saves).thumbCount
      invariant failCount == TallyOf(files[..j], saves).failCount
      invariant thumbsAfter == thumbs + TallyOf(files[..j], saves).created
    {
      var screenshotFile := files[j];
      thumbCount, failCount, thumbsAfter := ThumbnailOne(screenshotFile, saves, thumbCount, failCount, thumbsAfter);
      assert files[..j + 1][..j] == files[..j];
      j := j + 1;
    }
    assert files[..j] == files;
  }

  // ---------------------------------------------------------------------
  // Gallery
  // ---------------------------------------------------------------------

  /** `[file for file in listing if file.endswith('.png')]`. */
  function PngThumbs(listing: seq<string>): (r: seq<string>)
    ensures forall t :: t in r <==> t in listing && EndsWith(t, ".png")
  {
    if listing == [] then []
    else
      var t := listing[|listing| - 1];
      PngThumbs(listing[..|listing| - 1]) + (if EndsWith(t, ".png") then [t] else [])
  }

  /** `thumb.replace('thumb_', '')`: the name the gallery links to. */
  function OriginalName(thumb: string): string
  {
    Replace(thumb, "thumb_", "")
  }

  /** One gallery entry: the thumbnail shown, the caption, and the screenshot it opens. */
  datatype GalleryItem = GalleryItem(src: string, caption: string, link: string)

  function ItemFor(thumb: string): (item: GalleryItem)
    ensures item.src == "thumbs/" + thumb
    ensures item.link == "screenshots/" + item.caption
  {
    var original := OriginalName(thumb);
    GalleryItem("thumbs/" + thumb, original, "screenshots/" + original)
  }

  /**
   * `create_gallery_html` over the listing of the thumbnails directory:
   * no page at all when there is no `.png` thumbnail or the page cannot be
   * written (`writeOk`); otherwise one entry per `.png` thumbnail in
   * listing order.
   */
  method CreateGallery(listing: seq<string>, writeOk: bool) returns (gallery: Option<seq<GalleryItem>>)
    ensures gallery.Some? <==> PngThumbs(listing) != [] && writeOk
    ensures gallery.Some? ==>
      |gallery.value| == |PngThumbs(listing)| &&
      forall i :: 0 <= i < |gallery.value| ==> gallery.value[i] == ItemFor(PngThumbs(listing)[i])
  {
    var thumbs := PngThumbs(listing);
    if thumbs == [] {
      return None;
    }
    if !writeOk {
      return None;
    }
    var items: seq<GalleryItem> := [];
    var i := 0;
    while i < |thumbs|
      invariant 0 <= i <= |thumbs|
      invariant |items| == i
      invariant forall k :: 0 <= k < i ==> items[k] == ItemFor(thumbs[k])
    {
      var thumb := thumbs[i];
      var original := Replace(thumb, "thumb_", "");
      items := items + [GalleryItem("thumbs/" + thumb, original, "screenshots/" + original)];
      i := i + 1;
    }
    return Some(items);
  }

  /**
   * The gallery links a thumbnail back to its screenshot exactly when the
   * screenshot's own name does not contain `thumb_`; every occurrence is
   * removed, not just the prefix.
   */
  lemma {:induction false} OriginalRecovered(file: string)
    ensures OriginalName(ThumbName(file)) == file <==> !Contains(file, "thumb_")
  {
    var t := ThumbName(file);
    assert t[..6] == "thumb_" && t[6..] == file;
    assert OriginalName(t) == Replace(file, "thumb_", "");
    if Contains(file, "thumb_") {
      ReplaceDeletes(file, "thumb_");
    } else {
      ReplaceAbsent(file, "thumb_", "");
    }
  }

  /**
   * A `thumb_` inside the name of a screenshot is dropped from its gallery
   * link, whatever precedes it, so long as no `t` does.
   */
  lemma OriginalDropsInner(head: string, tail: string)
    requires 't' !in head
    ensures OriginalName(ThumbName(head + ("thumb_" + tail))) == head + Replace(tail, "thumb_", "")
  {
    var pat := "thumb_";
    var file := head + (pat + tail);
    assert ThumbName(file) == pat + file;
    ReplaceFront(pat, file, "");
    assert pat[0] == 't';
    ReplaceKeepsHead(head, pat + tail, pat, "");
    ReplaceFront(pat, tail, "");
    assert "" + Replace(file, pat, "") == Replace(file, pat, "");
    assert Replace(pat + tail, pat, "") == Replace(tail, pat, "");
  }

  /**
   * Thumbnails of `.png` screenshots appear in the gallery and link back to
   * their screenshot; thumbnails of `.jpg` screenshots never appear.
   */
  lemma GalleryCoversPng(file: string, listing: seq<string>)
    requires ThumbName(file) in listing
    requires !Contains(file, "thumb_")
    ensures EndsWith(file, ".png") ==>
      ThumbName(file) in PngThumbs(listing) && ItemFor(ThumbName(file)).link == "screenshots/" + file
    ensures EndsWith(file, ".jpg") ==> ThumbName(file) !in PngThumbs(listing)
  {
    var t := ThumbName(file);
    assert t[|t| - |file|..] == file;
    if EndsWith(file, ".png") {
      assert t[|t| - 4..] == file[|file| - 4..];
      OriginalRecovered(file);
    }
    if EndsWith(file, ".jpg") {
      assert t[|t| - 4..] == file[|file| - 4..];
      assert t[|t| - 3] == 'j';
    }
  }
}
