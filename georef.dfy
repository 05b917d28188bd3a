/** The georeferencing driver: reading the centre point back from a tile's
    file name, naming the output folder, the GeoTIFFs and the VRT catalog,
    choosing the range of images to process, and the batch loop of `main`.
    Raster decoding and writing, directory listing and `float()` are
    parameters of the model (`Env`), not behaviour. */
module Georef {
  import opened Common
  import opened PyText
  import opened PyPath
  import opened Coords
  import Downloader

  const GeotaggedSuffix: string := "_GEOTAGGED"
  const VrtSuffix: string := "_output.vrt"
  const TifExtension: string := ".tif"

  /** The ground resolution, in metres per pixel, used for both axes. */
  const PixelResolution: real := 0.17475

  /** What the driver takes from its surroundings: the working directory,
      the shape of the image at a path (None when it cannot be decoded),
      Python's `float()` on a string (None where it raises ValueError) and
      the cosine. */
  datatype Env = Env(cwd: string, read: string -> Option<Shape>, toFloat: string -> Option<real>, cos: real -> real)

  /** The underscore-separated fields of a file name without its extension. */
  function NameFields(filename: string): seq<string>
  {
    Split(Stem(filename), '_')
  }

  /** `name2latlong`: fields 1 and 2 of the name, each without its first two
      characters, converted left to right; field 2 is only looked up after
      field 1 converted. */
  function Name2LatLong(filename: string, toFloat: string -> Option<real>): (r: Result<(real, real)>)
    ensures r.Ok? <==> |NameFields(filename)| >= 3
                       && toFloat(DropPrefix(NameFields(filename)[1], 2)).Some?
                       && toFloat(DropPrefix(NameFields(filename)[2], 2)).Some?
    ensures r.Ok? ==> r.value == (toFloat(DropPrefix(NameFields(filename)[1], 2)).value,
                                  toFloat(DropPrefix(NameFields(filename)[2], 2)).value)
    ensures r.Err? ==> (r.error == IndexError <==>
                          (|NameFields(filename)| < 2 ||
                           (|NameFields(filename)| == 2 && toFloat(DropPrefix(NameFields(filename)[1], 2)).Some?)))
    ensures r.Err? ==> r.error == IndexError || r.error == ValueError
  {
    var fields := NameFields(filename);
    if |fields| < 2 then Err(IndexError)
    else
      var lat := toFloat(DropPrefix(fields[1], 2));
      if lat.None? then Err(ValueError)
      else if |fields| < 3 then Err(IndexError)
      else
        var lon := toFloat(DropPrefix(fields[2], 2));
        if lon.None? then Err(ValueError)
        else Ok((lat.value, lon.value))
  }

  /** A '.'-led extension without further dots or slashes is split off. */
  lemma StemOfExtension(base: string, ext: string)
    requires NoChar(base, '/') && base != [] && base[0] != '.'
    requires |ext| >= 1 && ext[0] == '.' && NoChar(ext, '/') && NoChar(ext[1..], '.')
    ensures Stem(base + ext) == base
  {
    var p := base + ext;
    assert NoChar(p, '/') by {
      forall k | 0 <= k < |p|
        ensures p[k] != '/'
      {
        if k >= |base| {
          assert p[k] == ext[k - |base|];
        }
      }
    }
    assert p[|base| + 1..] == ext[1..];
    RFindAt(p, '.', |base|);
    assert p[..|base|] == base;
    assert ExtensionStart(p) == |base|;
  }

  /** The fields of a stem "head_<m1><lat>_<m2><lon>" with two-character
      markers: the marker text itself is never looked at. */
  lemma {:induction false} MarkedFields(head: string, m1: string, lat: string, m2: string, lon: string)
    requires |m1| == 2 && |m2| == 2
    requires NoChar(head, '_') && NoChar(m1 + lat, '_') && NoChar(m2 + lon, '_')
    ensures var fields := Split(head + "_" + m1 + lat + "_" + m2 + lon, '_');
            && fields == [head, m1 + lat, m2 + lon]
            && DropPrefix(fields[1], 2) == lat && DropPrefix(fields[2], 2) == lon
  {
    var s := head + "_" + m1 + lat + "_" + m2 + lon;
    assert s == head + ['_'] + ((m1 + lat) + ['_'] + (m2 + lon));
    SplitCons(head, '_', (m1 + lat) + ['_'] + (m2 + lon));
    SplitCons(m1 + lat, '_', m2 + lon);
    SplitNone(m2 + lon, '_');
    assert (m1 + lat)[2..] == lat;
    assert (m2 + lon)[2..] == lon;
  }

  /** The padded id is digits, possibly after a '-': no '_' and no '/'. */
  lemma PaddedIdChars(id: int)
    ensures NoChar(ZFill(IntToStr(id), 4), '_') && NoChar(ZFill(IntToStr(id), 4), '/')
  {
    var s := IntToStr(id);
    var pad := ZFill(s, 4);
    forall i | 0 <= i < |pad|
      ensures pad[i] != '_' && pad[i] != '/'
    {
      if |s| >= 4 {
        assert pad[i] == s[i];
      } else if s[0] == '-' {
        assert s[1..][0] == s[1];
      }
    }
  }

  /** Dropping ".png" from a tile name leaves "IMG<id>_LT<lat>_LG<lon>". */
  lemma TileNameStem(id: int, lat: string, lon: string)
    requires NoChar(lat, '/') && NoChar(lon, '/')
    ensures Stem(Downloader.TileName(id, lat, lon)) ==
            Downloader.TilePrefix + ZFill(IntToStr(id), 4) + "_" + Downloader.LatMarker + lat + "_" + Downloader.LonMarker + lon
  {
    var pad := ZFill(IntToStr(id), 4);
    PaddedIdChars(id);
    var head := Downloader.TilePrefix + pad;
    var base := head + "_" + Downloader.LatMarker + lat + "_" + Downloader.LonMarker + lon;
    forall i | 0 <= i < |base|
      ensures base[i] != '/'
    {
      if i >= |head| + 3 + |lat| + 3 {
        assert base[i] == lon[i - |head| - 3 - |lat| - 3];
      } else if i >= |head| + 3 && i < |head| + 3 + |lat| {
        assert base[i] == lat[i - |head| - 3];
      } else if i < |head| && i >= 3 {
        assert base[i] == pad[i - 3];
      }
    }
    StemOfExtension(base, Downloader.TileExtension);
  }

  /** The file names the download bot produces read back as the latitude
      and longitude text they were built from, for any id and any
      coordinate text without '_' or '/'. */
  lemma TileNameRoundTrip(id: int, lat: string, lon: string)
    requires NoChar(lat, '_') && NoChar(lon, '_') && NoChar(lat, '/') && NoChar(lon, '/')
    ensures var fields := NameFields(Downloader.TileName(id, lat, lon));
            && |fields| == 3 && DropPrefix(fields[1], 2) == lat && DropPrefix(fields[2], 2) == lon
  {
    var pad := ZFill(IntToStr(id), 4);
    PaddedIdChars(id);
    TileNameStem(id, lat, lon);
    NoCharMarked(Downloader.TilePrefix, pad);
    NoCharMarked(Downloader.LatMarker, lat);
    NoCharMarked(Downloader.LonMarker, lon);
    MarkedFields(Downloader.TilePrefix + pad, Downloader.LatMarker, lat, Downloader.LonMarker, lon);
  }

  /** Parsing a tile name converts exactly the latitude and longitude text it was built from. */
  lemma TileNameParses(id: int, lat: string, lon: string, toFloat: string -> Option<real>)
    requires NoChar(lat, '_') && NoChar(lon, '_') && NoChar(lat, '/') && NoChar(lon, '/')
    ensures Name2LatLong(Downloader.TileName(id, lat, lon), toFloat) ==
            if toFloat(lat).None? || toFloat(lon).None? then Err(ValueError)
            else Ok((toFloat(lat).value, toFloat(lon).value))
  {
    TileNameRoundTrip(id, lat, lon);
  }

  lemma NoCharMarked(m: string, s: string)
    requires NoChar(m, '_') && NoChar(s, '_')
    ensures NoChar(m + s, '_')
  {
    forall i | 0 <= i < |m + s|
      ensures (m + s)[i] != '_'
    {
      if i >= |m| { assert (m + s)[i] == s[i - |m|]; }
    }
  }

  /** Python's resolution of a slice bound against a list length: negative
      bounds count from the end, and bounds outside the list are clamped. */
  function SliceBound(i: int, len: nat): (r: nat)
    ensures r <= len
    ensures 0 <= i <= len ==> r == i
  {
    if i < 0 then (if i + len >= 0 then i + len else 0)
    else if i <= len then i else len
  }

  /** How a slice bound resolves: `-k` is the k-th position from the end,
      bounds past either end are clamped, and among bounds of one sign a
      larger bound never resolves to an earlier position. */
  lemma SliceBoundResolves(i: int, j: int, k: nat, len: nat)
    ensures 0 < k <= len ==> SliceBound(-(k as int), len) == len - k
    ensures i >= len ==> SliceBound(i, len) == len
    ensures i <= -(len as int) ==> SliceBound(i, len) == 0
    ensures i <= j && (0 <= i || j < 0) ==> SliceBound(i, len) <= SliceBound(j, len)
  {
  }

  /** `image_list[start:stop]` with `start` defaulting to 0 and `stop` to
      the list length: the elements from the resolved start up to the
      resolved stop, or none when the start is not before the stop. */
  function Selected(s: seq<string>, start: Option<int>, stop: Option<int>): (r: seq<string>)
    ensures |r| <= |s|
    ensures forall x :: x in r ==> x in s
  {
    var lo := SliceBound(if start.Some? then start.value else 0, |s|);
    var hi := SliceBound(if stop.Some? then stop.value else |s|, |s|);
    if lo < hi then s[lo..hi] else []
  }

  /** The selection is a contiguous run of the list, element by element. */
  lemma SelectedElements(s: seq<string>, start: Option<int>, stop: Option<int>)
    ensures var lo := SliceBound(if start.Some? then start.value else 0, |s|);
            var hi := SliceBound(if stop.Some? then stop.value else |s|, |s|);
            && |Selected(s, start, stop)| == (if lo < hi then hi - lo else 0)
            && forall j :: 0 <= j < |Selected(s, start, stop)| ==> Selected(s, start, stop)[j] == s[lo + j]
  {
  }

  /** Without bounds every image is processed. */
  lemma SelectedAll(s: seq<string>)
    ensures Selected(s, None, None) == s
  {
  }

  /** A start at or after the stop selects nothing, and raises nothing. */
  lemma SelectedEmpty(s: seq<string>, start: int, stop: int)
    requires 0 <= stop <= start
    ensures Selected(s, Some(start), Some(stop)) == []
  {
  }

  /** Resuming: the run over [a, b) followed by the run from b covers the
      run from a, each image once and in order. */
  lemma SelectedResume(s: seq<string>, a: int, b: int, stop: Option<int>)
    requires 0 <= a <= b
    requires stop.Some? ==> b <= stop.value
    ensures Selected(s, Some(a), Some(b)) + Selected(s, Some(b), stop) == Selected(s, Some(a), stop)
  {
    var lo := SliceBound(a, |s|);
    var mid := SliceBound(b, |s|);
    var hi := SliceBound(if stop.Some? then stop.value else |s|, |s|);
    SliceBoundResolves(a, b, 0, |s|);
    assert lo <= mid <= hi;
    if lo < mid && mid < hi {
      assert s[lo..mid] + s[mid..hi] == s[lo..hi];
    }
  }

  /** The folder name used when none is given: the image folder's name plus "_GEOTAGGED". */
  function DefaultFolder(imagePath: string): string
  {
    Basename(imagePath) + GeotaggedSuffix
  }

  /** `os.path.abspath(os.path.join(imagePath, os.pardir))`. */
  function ParentFolder(cwd: string, imagePath: string): string
  {
    AbsPath(cwd, Join(imagePath, ".."))
  }

  /** Where the GeoTIFFs go: the given folder or the default one, joined
      onto the parent of the image folder. */
  function SavePath(cwd: string, imagePath: string, saveFolder: Option<string>): string
  {
    Join(ParentFolder(cwd, imagePath), if saveFolder.Some? then saveFolder.value else DefaultFolder(imagePath))
  }

  /** The default output folder is named after the image folder and sits
      beside it, in the absolute form of the image folder's parent. */
  lemma DefaultSavePath(cwd: string, dir: string, folder: string)
    requires dir != [] && dir[|dir| - 1] != '/'
    requires folder != "" && folder != "." && folder != ".." && NoChar(folder, '/')
    ensures SavePath(cwd, dir + "/" + folder, None) == Join(AbsPath(cwd, dir), folder + GeotaggedSuffix)
  {
    var imagePath := dir + "/" + folder;
    assert imagePath[|dir|..] == "/" + folder;
    BasenameOfSuffix(imagePath, folder);
    AbsPathParent(cwd, dir, folder);
  }

  /** The last segment of the default save path is the image folder's
      basename plus "_GEOTAGGED" (just "_GEOTAGGED" when the image path
      ends with '/'). */
  lemma DefaultSaveFolderName(cwd: string, imagePath: string)
    ensures Basename(SavePath(cwd, imagePath, None)) == Basename(imagePath) + GeotaggedSuffix
  {
    var folder := Basename(imagePath);
    var name := folder + GeotaggedSuffix;
    assert NoChar(name, '/') by {
      forall i | 0 <= i < |name|
        ensures name[i] != '/'
      {
        if i >= |folder| {
          assert name[i] == GeotaggedSuffix[i - |folder|];
        }
      }
    }
    BasenameJoin(ParentFolder(cwd, imagePath), name);
  }

  /** A given folder name without '/' is the last segment of the save path. */
  lemma GivenSavePath(cwd: string, imagePath: string, folder: string)
    requires NoChar(folder, '/')
    ensures Basename(SavePath(cwd, imagePath, Some(folder))) == folder
  {
    BasenameJoin(ParentFolder(cwd, imagePath), folder);
  }

  /** The GeoTIFF written for the image at `filepath`: its file name without
      the extension, plus ".tif", in the save folder. */
  function OutputPath(savePath: string, filepath: string): string
  {
    Join(savePath, Stem(Basename(filepath)) + TifExtension)
  }

  /** An image listed in the image folder gives the GeoTIFF "<stem>.tif" in the save folder. */
  lemma OutputPathName(savePath: string, imagePath: string, image: string)
    requires NoChar(image, '/')
    ensures Basename(Join(imagePath, image)) == image
    ensures Basename(OutputPath(savePath, Join(imagePath, image))) == Stem(image) + TifExtension
  {
    BasenameJoin(imagePath, image);
    TifNameNoSlash(image);
    BasenameJoin(savePath, Stem(image) + TifExtension);
  }

  lemma TifNameNoSlash(image: string)
    requires NoChar(image, '/')
    ensures NoChar(Stem(image) + TifExtension, '/')
  {
    var stem := Stem(image);
    var name := stem + TifExtension;
    assert image == stem + SplitExt(image).1;
    forall i | 0 <= i < |name|
      ensures name[i] != '/'
    {
      if i < |stem| {
        assert name[i] == image[i];
      } else {
        assert name[i] == TifExtension[i - |stem|];
      }
    }
  }

  /** The VRT file name: the second-last '/' segment of the save path, '_',
      the last segment up to its first '_', and "_output.vrt"; a save path
      without '/' has no second-last segment. */
  function VrtName(savePath: string): (r: Result<string>)
    ensures r.Err? <==> NoChar(savePath, '/')
    ensures r.Err? ==> r.error == IndexError
    ensures r.Ok? ==> EndsWith(r.value, VrtSuffix)
  {
    SplitSingle(savePath, '/');
    var segments := Split(savePath, '/');
    if |segments| < 2 then Err(IndexError)
    else
      var id1 := segments[|segments| - 2];
      var id2 := Split(segments[|segments| - 1], '_')[0];
      var name := id1 + "_" + id2 + VrtSuffix;
      assert name[|name| - |VrtSuffix|..] == VrtSuffix;
      Ok(name)
  }

  /** For a save path ".../a/b" the VRT is named "a_<b up to its first '_'>_output.vrt". */
  lemma VrtNameOf(p: string, a: string, b: string)
    requires NoChar(a, '/') && NoChar(b, '/')
    ensures VrtName(p + "/" + a + "/" + b) == Ok(a + "_" + Split(b, '_')[0] + VrtSuffix)
  {
    assert p + "/" + a + "/" + b == (p + ['/'] + a) + ['/'] + b;
    SplitSnoc(p + ['/'] + a, '/', b);
    SplitSnoc(p, '/', a);
  }

  /** `os.path.abspath(os.path.join(save_path, os.pardir, name))`. */
  function VrtPath(cwd: string, savePath: string, name: string): string
  {
    AbsPath(cwd, Join(Join(savePath, ".."), name))
  }

  /** The catalog file keeps its name wherever the save folder is. */
  lemma VrtPathName(cwd: string, savePath: string, name: string)
    requires name != "" && name != "." && name != ".." && NoChar(name, '/')
    ensures Basename(VrtPath(cwd, savePath, name)) == name
  {
    var up := Join(savePath, "..");
    assert up != [] && up[|up| - 1] == '.';
    var q := Join(up, name);
    assert q == up + "/" + name;
    if IsAbs(q) {
      NormPathBasename(up, name);
    } else {
      assert up + "/" + name == up + ("/" + name);
      JoinAppend(cwd, up, "/" + name);
      assert Join(cwd, up) + ("/" + name) == Join(cwd, up) + "/" + name;
      NormPathBasename(Join(cwd, up), name);
    }
  }

  /** `genVRT`'s source list: the entries of the folder listing that end
      in ".tif", joined onto the folder, in listing order. */
  function TifSources(dir: string, listing: seq<string>): (r: seq<string>)
    ensures |r| <= |listing|
    ensures forall x :: x in r <==> exists f :: f in listing && EndsWith(f, TifExtension) && x == Join(dir, f)
  {
    if listing == [] then []
    else
      var f := listing[|listing| - 1];
      var init := listing[..|listing| - 1];
      assert listing == init + [f];
      TifSources(dir, init) + (if EndsWith(f, TifExtension) then [Join(dir, f)] else [])
  }

  /** What `geotag` writes: the file, its bounds and its size in pixels. */
  datatype Tiff = Tiff(path: string, box: BBox, width: nat, height: nat)

  /** One pass of `main`'s loop: parse the centre from the name, read the
      image, compute its box and name its GeoTIFF, or the error that ends
      the run. */
  function Geotag(env: Env, imagePath: string, savePath: string, image: string): (r: Result<Tiff>)
    ensures r.Ok? ==> Name2LatLong(image, env.toFloat).Ok? && env.read(Join(imagePath, image)).Some?
    ensures r.Ok? ==> r.value.box.north >= r.value.box.south && r.value.box.east >= r.value.box.west
    ensures r.Ok? ==> r.value.path == OutputPath(savePath, Join(imagePath, image))
    ensures r.Ok? ==> r.value.width == env.read(Join(imagePath, image)).value.cols
                      && r.value.height == env.read(Join(imagePath, image)).value.rows
    ensures Name2LatLong(image, env.toFloat).Err? ==> r == Err(Name2LatLong(image, env.toFloat).error)
    ensures r.Ok? <==> Name2LatLong(image, env.toFloat).Ok? && env.read(Join(imagePath, image)).Some?
                       && env.read(Join(imagePath, image)).value.rows > 0
                       && env.cos(Pi * Name2LatLong(image, env.toFloat).value.0 / 180.0) != 0.0
    ensures Name2LatLong(image, env.toFloat).Ok? && env.read(Join(imagePath, image)).None? ==> r == Err(ReadFailure)
    ensures Name2LatLong(image, env.toFloat).Ok? && env.read(Join(imagePath, image)).Some? && r.Err? ==>
              r.error == ZeroDivision
  {
    var filepath := Join(imagePath, image);
    var centre := Name2LatLong(image, env.toFloat);
    if centre.Err? then Err(centre.error)
    else
      var shape := env.read(filepath);
      if shape.None? then Err(ReadFailure)
      else
        var box := GetCoord(centre.value.0, centre.value.1, shape.value, PixelResolution, PixelResolution, env.cos);
        if box.Err? then Err(box.error)
        else Ok(Tiff(OutputPath(savePath, filepath), box.value, shape.value.cols, shape.value.rows))
  }

  /** Every GeoTIFF is named after the image it comes from, in the save folder. */
  lemma GeotagOutputName(env: Env, imagePath: string, savePath: string, image: string)
    requires NoChar(image, '/')
    requires Geotag(env, imagePath, savePath, image).Ok?
    ensures Basename(Geotag(env, imagePath, savePath, image).value.path) == Stem(image) + TifExtension
  {
    OutputPathName(savePath, imagePath, image);
  }

  /** The catalog `genVRT` builds: its path and the files it lists. */
  datatype Vrt = Vrt(path: string, sources: seq<string>)

  /** How `main` ended: normally, with the catalog when one was asked
      for, or with the exception that stopped it. */
  datatype MainEnd = Done(catalog: Option<Vrt>) | Failed(error: PyError)

  /** The outcome of treating `images` in order with `tag`, stopping at the
      first one that raises: the files written and the exception, if any. */
  function Tagged(tag: string -> Result<Tiff>, images: seq<string>): (seq<Tiff>, Option<PyError>)
  {
    if images == [] then ([], None)
    else
      var prev := Tagged(tag, images[..|images| - 1]);
      if prev.1.Some? then prev
      else
        var r := tag(images[|images| - 1]);
        if r.Err? then (prev.0, Some(r.error)) else (prev.0 + [r.value], None)
  }

  /** The run writes the file of every image before the first one that
      raises, in order, and ends with that image's exception; without an
      exception every image is written. */
  lemma {:induction false} TaggedFacts(tag: string -> Result<Tiff>, images: seq<string>)
    ensures var (written, failure) := Tagged(tag, images);
            && |written| <= |images|
            && (forall k :: 0 <= k < |written| ==> tag(images[k]) == Ok(written[k]))
            && (failure.None? <==> |written| == |images|)
            && (failure.Some? ==> tag(images[|written|]) == Err(failure.value))
  {
    if images != [] {
      var init := images[..|images| - 1];
      TaggedFacts(tag, init);
      var prev := Tagged(tag, init);
      assert forall k :: 0 <= k < |init| ==> images[k] == init[k];
      if prev.1.None? {
        var r := tag(images[|images| - 1]);
        if r.Ok? {
          var w := prev.0 + [r.value];
          forall k | 0 <= k < |w|
            ensures tag(images[k]) == Ok(w[k])
          {
            if k < |prev.0| {
              assert w[k] == prev.0[k];
            }
          }
        }
      }
    }
  }

  /** Once an image has raised, the later images change nothing. */
  lemma {:induction false} TaggedStops(tag: string -> Result<Tiff>, images: seq<string>, n: nat)
    requires n <= |images|
    requires Tagged(tag, images[..n]).1.Some?
    ensures Tagged(tag, images) == Tagged(tag, images[..n])
  {
    if n < |images| {
      assert images[..|images| - 1][..n] == images[..n];
      TaggedStops(tag, images[..|images| - 1], n);
    } else {
      assert images[..n] == images;
    }
  }

  /** `main`'s loop over the selected images, with `tag` standing for its
      body (build a `Geotagger` for the image and call `geotag`): treat
      them in order and stop at the first one that raises. */
  method GeotagImages(tag: string -> Result<Tiff>, images: seq<string>)
    returns (written: seq<Tiff>, failure: Option<PyError>)
    ensures (written, failure) == Tagged(tag, images)
  {
    var length := |images|;
    written := [];
    failure := None;
    var i := 0;
    while i < |images|
      invariant 0 <= i <= |images| && length == |images| - i
      invariant Tagged(tag, images[..i]) == (written, None)
    {
      var r := tag(images[i]);
      assert images[..i + 1][..i] == images[..i];
      if r.Err? {
        failure := Some(r.error);
        TaggedStops(tag, images, i + 1);
        return;
      }
      written := written + [r.value];
      length := length - 1;
      i := i + 1;
    }
    assert images[..i] == images;
  }

  /** `main(imagePath, vrt, saveFolder, start, stop)`: `listing` is what
      `os.listdir(imagePath)` returns and `saveListing` what
      `os.listdir(save_path)` returns when the catalog is built. */
  method Georeference(env: Env, imagePath: string, vrt: bool, saveFolder: Option<string>,
              start: Option<int>, stop: Option<int>, listing: seq<string>, saveListing: seq<string>)
    returns (written: seq<Tiff>, end: MainEnd)
    ensures var images := Selected(SortStrings(listing), start, stop);
            var savePath := SavePath(env.cwd, imagePath, saveFolder);
            && |written| <= |images|
            && (forall k :: 0 <= k < |written| ==> Geotag(env, imagePath, savePath, images[k]) == Ok(written[k]))
            && (|written| < |images| ==> end.Failed? && Geotag(env, imagePath, savePath, images[|written|]) == Err(end.error))
            && (|written| == |images| && !vrt ==> end == Done(None))
            && (|written| == |images| && vrt ==>
                  end == (if VrtName(savePath).Err? then Failed(VrtName(savePath).error)
                          else if images == [] then Failed(UnboundLocal)
                          else Done(Some(Vrt(VrtPath(env.cwd, savePath, VrtName(savePath).value),
                                             TifSources(savePath, saveListing))))))
  {
    var folder := if saveFolder.Some? then saveFolder.value else DefaultFolder(imagePath);
    var parent := ParentFolder(env.cwd, imagePath);
    var savePath := Join(parent, folder);
    var sorted := SortStrings(listing);
    var images := Selected(sorted, start, stop);
    var tag := (image: string) => Geotag(env, imagePath, savePath, image);
    var failure;
    written, failure := GeotagImages(tag, images);
    TaggedFacts(tag, images);
    if failure.Some? {
      end := Failed(failure.value);
      return;
    }
    var ranOne := images != [];  // whether `geotagger` has been bound
    end := Done(None);
    if vrt {
      var name := VrtName(savePath);
      if name.Err? {
        end := Failed(name.error);
      } else if !ranOne {
        end := Failed(UnboundLocal);
      } else {
        end := Done(Some(Vrt(VrtPath(env.cwd, savePath, name.value), TifSources(savePath, saveListing))));
      }
    }
  }
}
