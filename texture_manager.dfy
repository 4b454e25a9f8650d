/** `TextureManager`: a cache of shared textures keyed by file path. Whether a
    file exists and the identity of the texture object the constructor
    allocates are parameters; the GL upload itself is not modelled. */
module TextureManagers {
  import opened Wrappers

  /** The two pixel formats `getFormatFromExtension` can answer. */
  datatype Format = RGB | RGBA

  /** What `std::string::substr` throws when the start is past the end. */
  datatype Thrown = OutOfRange

  /** A texture as the manager creates it: the object's identity, then the
      constructor's arguments (path, type, unit and format). */
  datatype Texture = Texture(id: nat, path: string, kind: string, unit: int, format: Format)

  /** Textures are created with no permanent unit. */
  const NO_UNIT: int := -1
  /** The default `type` argument of `loadTexture`. */
  const DEFAULT_KIND: string := "diffuse"

  /** `find_last_of(c)`: the index of the last `c`, or none (`npos`). */
  function LastIndexOf(s: string, c: char): (r: Option<nat>)
    ensures r.None? <==> c !in s
    ensures r.Some? ==> r.value < |s| && s[r.value] == c
    ensures r.Some? ==> forall k :: r.value < k < |s| ==> s[k] != c
  {
    if |s| == 0 then None
    else if s[|s| - 1] == c then Some(|s| - 1)
    else
      assert s == s[..|s| - 1] + [s[|s| - 1]];
      LastIndexOf(s[..|s| - 1], c)
  }

  /** `filepath.substr(filepath.find_last_of('.'))`: the suffix from the last
      dot on, or the exception `substr(npos)` raises when there is no dot. */
  function Extension(path: string): (r: Result<string, Thrown>)
    ensures r.Failure? <==> '.' !in path
    ensures r.Success? ==> |r.value| >= 1 && r.value[0] == '.' && '.' !in r.value[1..]
    ensures r.Success? ==> |r.value| <= |path| && r.value == path[|path| - |r.value|..]
  {
    match LastIndexOf(path, '.')
    case None => Failure(OutOfRange)
    case Some(i) =>
      NoneAfter(path, i, '.');
      Success(path[i..])
  }

  lemma NoneAfter(s: string, i: nat, c: char)
    requires i < |s| && forall k :: i < k < |s| ==> s[k] != c
    ensures c !in s[i + 1..]
  {
    var tail := s[i + 1..];
    forall j | 0 <= j < |tail|
      ensures tail[j] != c
    {
      assert tail[j] == s[i + 1 + j];
    }
  }

  /** The extension of `stem + "." + suffix` is `"." + suffix` when the
      suffix has no dot of its own. */
  lemma SuffixExtension(stem: string, suffix: string)
    requires '.' !in suffix
    ensures Extension(stem + "." + suffix) == Success("." + suffix)
  {
    var path := stem + "." + suffix;
    var ext := Extension(path).value;
    var n := |suffix| + 1;
    assert path[|stem|] == '.';
    assert path[|stem|..] == "." + suffix;
    assert |ext| == n;
  }

  /** `getFormatFromExtension`: RGBA for ".png" and ".PNG", RGB for every
      other suffix (the jpg, jpeg and bmp branches and the default agree). */
  function FormatFromExtension(path: string): (r: Result<Format, Thrown>)
    ensures r.Failure? <==> '.' !in path
    ensures r.Success? ==> (r.value == RGBA <==> Extension(path).value in {".png", ".PNG"})
  {
    var ext :- Extension(path);
    if ext == ".png" || ext == ".PNG" then Success(RGBA) else Success(RGB)
  }

  /** Any path ending in ".png" is RGBA, whatever comes before. */
  lemma PngSuffixIsRgba(stem: string)
    ensures FormatFromExtension(stem + ".png") == Success(RGBA)
  {
    SuffixExtension(stem, "png");
    assert stem + "." + "png" == stem + ".png";
  }

  /** Only the last dot counts, and the suffix is compared case-sensitively:
      whatever the stem, ".png.jpg" is RGB, ".PNG" is RGBA and ".Png" is RGB. */
  lemma LastDotDecides(stem: string)
    ensures FormatFromExtension(stem + ".png.jpg") == Success(RGB)
    ensures FormatFromExtension(stem + ".PNG") == Success(RGBA)
    ensures FormatFromExtension(stem + ".Png") == Success(RGB)
  {
    JpgAfterPng(stem);
    UpperPng(stem);
    MixedCasePng(stem);
  }

  lemma JpgAfterPng(stem: string)
    ensures FormatFromExtension(stem + ".png.jpg") == Success(RGB)
  {
    SuffixFormat(stem + ".png", "jpg");
    assert stem + ".png" + "." + "jpg" == stem + ".png.jpg";
  }

  lemma UpperPng(stem: string)
    ensures FormatFromExtension(stem + ".PNG") == Success(RGBA)
  {
    SuffixFormat(stem, "PNG");
    assert stem + "." + "PNG" == stem + ".PNG";
  }

  lemma MixedCasePng(stem: string)
    ensures FormatFromExtension(stem + ".Png") == Success(RGB)
  {
    SuffixFormat(stem, "Png");
    assert stem + "." + "Png" == stem + ".Png";
    assert "Png" != "png" && "Png" != "PNG";
  }

  /** The format of `stem + "." + suffix`, for a suffix without a dot, is
      decided by the suffix alone. */
  lemma SuffixFormat(stem: string, suffix: string)
    requires '.' !in suffix
    ensures FormatFromExtension(stem + "." + suffix) == Success(if suffix in {"png", "PNG"} then RGBA else RGB)
  {
    SuffixExtension(stem, suffix);
    var ext := "." + suffix;
    assert ext[1..] == suffix;
    assert ext == ".png" <==> suffix == "png" by {
      if suffix == "png" { assert ext == ".png"; }
      if ext == ".png" { assert ".png"[1..] == "png"; }
    }
    assert ext == ".PNG" <==> suffix == "PNG" by {
      if suffix == "PNG" { assert ext == ".PNG"; }
      if ext == ".PNG" { assert ".PNG"[1..] == "PNG"; }
    }
  }

  /** What one `loadTexture` call returns and leaves in the cache. */
  datatype LoadOutcome = LoadOutcome(result: Result<Option<Texture>, Thrown>, cache: map<string, Texture>)

  /** `loadTexture(path, kind)`: a cached path gives the cached texture;
      a missing file gives null; otherwise the format is taken from the
      extension (which can throw, leaving the cache as it was) and the new
      texture `Texture(id, path, kind, -1, format)` is cached and returned. */
  function Loaded(cache: map<string, Texture>, path: string, kind: string, onDisk: bool, id: nat): (o: LoadOutcome)
    ensures path in cache ==> o == LoadOutcome(Success(Some(cache[path])), cache)
    ensures path !in cache && !onDisk ==> o == LoadOutcome(Success(None), cache)
    ensures path !in cache && onDisk && '.' !in path ==> o == LoadOutcome(Failure(OutOfRange), cache)
    ensures path !in cache && onDisk && '.' in path ==>
      var t := Texture(id, path, kind, NO_UNIT, FormatFromExtension(path).value);
      o == LoadOutcome(Success(Some(t)), cache[path := t])
  {
    if path in cache then LoadOutcome(Success(Some(cache[path])), cache)
    else if !onDisk then LoadOutcome(Success(None), cache)
    else match FormatFromExtension(path)
      case Failure(e) => LoadOutcome(Failure(e), cache)
      case Success(format) =>
        var t := Texture(id, path, kind, NO_UNIT, format);
        LoadOutcome(Success(Some(t)), cache[path := t])
  }

  /** A load that returns a texture leaves its path cached with that texture,
      and only that path is added. */
  lemma LoadedIsCached(cache: map<string, Texture>, path: string, kind: string, onDisk: bool, id: nat)
    ensures var o := Loaded(cache, path, kind, onDisk, id);
      o.result.Success? && o.result.value.Some? ==>
        path in o.cache && o.cache[path] == o.result.value.value && o.cache.Keys == cache.Keys + {path}
    ensures var o := Loaded(cache, path, kind, onDisk, id);
      forall p :: p in cache ==> p in o.cache && o.cache[p] == cache[p]
  {
  }

  /** Loading the same path again returns the same texture and changes
      nothing, whatever the second call's arguments are. */
  lemma {:induction false} LoadTwice(cache: map<string, Texture>, path: string, kind: string, onDisk: bool, id: nat,
                                     kind2: string, onDisk2: bool, id2: nat)
    requires Loaded(cache, path, kind, onDisk, id).result.Success?
    requires Loaded(cache, path, kind, onDisk, id).result.value.Some?
    ensures var first := Loaded(cache, path, kind, onDisk, id);
      Loaded(first.cache, path, kind2, onDisk2, id2) == first
  {
    LoadedIsCached(cache, path, kind, onDisk, id);
  }

  class TextureManager {
    var textureCache: map<string, Texture>

    /** The default constructor of the singleton: an empty cache. */
    constructor()
      ensures textureCache == map[]
    {
      textureCache := map[];
    }

    /** `loadTexture`; `onDisk` answers `std::filesystem::exists(path)` and
        `id` is the identity of the object `make_shared` would allocate. */
    method LoadTexture(path: string, kind: string, onDisk: bool, id: nat) returns (r: Result<Option<Texture>, Thrown>)
      modifies this
      ensures r == Loaded(old(textureCache), path, kind, onDisk, id).result
      ensures textureCache == Loaded(old(textureCache), path, kind, onDisk, id).cache
    {
      if path in textureCache {
        return Success(Some(textureCache[path]));
      }
      if !onDisk {
        return Success(None);
      }
      var format := FormatFromExtension(path);
      if format.Failure? {
        return Failure(format.error);
      }
      var texture := Texture(id, path, kind, NO_UNIT, format.value);
      textureCache := textureCache[path := texture];
      return Success(Some(texture));
    }

    /** `getTexture`: the cached entry or null; it never inserts. */
    function GetTexture(path: string): (r: Option<Texture>)
      reads this
      ensures r.Some? <==> path in textureCache
      ensures r.Some? ==> r.value == textureCache[path]
    {
      if path in textureCache then Some(textureCache[path]) else None
    }

    /** `isLoaded`. */
    predicate IsLoaded(path: string): (b: bool)
      reads this
      ensures b <==> GetTexture(path).Some?
    {
      path in textureCache
    }

    /** `unloadTexture`: only that path goes; an unknown path changes nothing. */
    method UnloadTexture(path: string)
      modifies this
      ensures textureCache == old(textureCache) - {path}
      ensures path !in old(textureCache) ==> textureCache == old(textureCache)
    {
      if path in textureCache {
        textureCache := textureCache - {path};
      }
    }

    method ClearCache()
      modifies this
      ensures textureCache == map[]
    {
      textureCache := map[];
    }

    /** `getCacheSize`: the number of cached paths. */
    function GetCacheSize(): (n: nat)
      reads this
      ensures n == |textureCache.Keys|
    {
      |textureCache|
    }
  }

  /** A texture freshly loaded from disk grows the cache by one, and
      unloading it shrinks the cache back to its old contents. */
  lemma {:induction false} LoadThenUnload(cache: map<string, Texture>, path: string, kind: string, id: nat)
    requires path !in cache && '.' in path
    ensures |Loaded(cache, path, kind, true, id).cache| == |cache| + 1
    ensures Loaded(cache, path, kind, true, id).cache - {path} == cache
  {
    var after := Loaded(cache, path, kind, true, id).cache;
    assert after.Keys == cache.Keys + {path};
    assert after - {path} == cache;
  }
}
