/** Concrete tile sources and the URLs and cache names they produce. */
module TileExamples {
  import opened Wrappers
  import opened JavaText
  import opened OrgJson
  import opened Maply

  /** A plain base URL: the tile path is appended as `level/x/y`, then the extension. */
  method ConcatenationExample() returns (url: string)
    ensures url == "http://tiles.example.com/2/3/5.png"
  {
    var base := "http://tiles.example.com/";
    MissingCharNotContained(base, "{x}", 0);
    MissingCharNotContained(base, "{y}", 0);
    var info := new RemoteTileInfo.FromBase(base, Some("png"), 0, 18);
    url := info.BuildURL(3, 5, 2);
  }

  /** A template base URL: each placeholder is replaced by its coordinate. */
  method TemplateExample() returns (url: string)
    ensures url == "http://a.example.com/10/1/2.jpg"
  {
    var base := "http://a.example.com/" + "{z}" + "/" + "{x}" + "/" + "{y}";
    SubstituteLevelColumnRow("http://a.example.com/", "/", "/", 1, 2, 10);
    assert Substitute(base, 1, 2, 10) == "http://a.example.com/10/1/2";
    ContainsInfix("http://a.example.com/" + "{z}" + "/", "{x}", "/" + "{y}");
    assert "http://a.example.com/" + "{z}" + "/" + "{x}" + ("/" + "{y}") == base;
    var info := new RemoteTileInfo.FromBase(base, Some("jpg"), 0, 18);
    assert info.replaceURL && info.Mirror(1) == base;
    assert info.TilePath(1, 2, 10) == "http://a.example.com/10/1/2";
    url := info.BuildURL(1, 2, 10);
  }

  /** A base URL naming only `{z}` does not switch substitution on, so `{z}` stays in the URL. */
  method LevelOnlyTemplateExample() returns (url: string)
    ensures url == "http://tile.osm.org/{z}/3/1/2.png"
  {
    var base := "http://tile.osm.org/{z}/";
    MissingCharNotContained(base, "{x}", 1);
    MissingCharNotContained(base, "{y}", 1);
    var info := new RemoteTileInfo.FromBase(base, Some("png"), 0, 18);
    url := info.BuildURL(1, 2, 3);
  }

  /** With two mirrors, even columns go to the first and odd columns to the second, whatever the row and level. */
  method MirrorExample() returns (even: string, odd: string)
    ensures even == "http://a/3/4/7.png"
    ensures odd == "http://b/3/5/7.png"
  {
    var json := map["tiles" := JArray([JString("http://a/"), JString("http://b/")]),
                    "minzoom" := JNumber(0), "maxzoom" := JNumber(12)];
    assert IsCompleteTileJson(json);
    var info := new RemoteTileInfo.FromJson(json);
    assert info.baseURLs == ["http://a/", "http://b/"];
    assert info.ext == Some("png") && !info.replaceURL;
    assert info.Mirror(4) == "http://a/" && info.Mirror(5) == "http://b/";
    assert Decimal(3) == "3" && Decimal(4) == "4" && Decimal(5) == "5" && Decimal(7) == "7";
    assert info.TilePath(4, 7, 3) == "http://a/3/4/7";
    assert info.TilePath(5, 7, 3) == "http://b/3/5/7";
    even := info.BuildURL(4, 7, 3);
    odd := info.BuildURL(5, 7, 3);
  }

  /** Cache names with and without an animation frame. */
  method CacheNameExample() returns (plain: string, framed: string, noFrame: string)
    ensures plain == "/5_3_4.png"
    ensures framed == "/5_3_4_7.png"
    ensures noFrame == plain
  {
    var info := new RemoteTileInfo.FromBase("http://tiles.example.com/", Some("png"), 0, 18);
    plain := info.BuildCacheName(3, 4, 5);
    framed := info.BuildFrameCacheName(3, 4, 5, 7);
    noFrame := info.BuildFrameCacheName(3, 4, 5, -1);
  }

  /** A null extension is written as the text "null" in cache names. */
  method NullExtensionCacheNameExample() returns (name: string)
    ensures name == "/5_3_4.null"
  {
    var info := new RemoteTileInfo.FromBase("http://tiles.example.com/", None, 0, 18);
    name := info.BuildCacheName(3, 4, 5);
  }

  /** A complete TileJSON object fills every field; substitution stays off. */
  method TileJsonExample() returns (urls: seq<string>, lo: int, hi: int, e: Option<string>, replace: bool)
    ensures urls == ["http://x/{z}/{x}/{y}"] && lo == 0 && hi == 12
    ensures e == Some("png") && !replace
  {
    var json := map["tiles" := JArray([JString("http://x/{z}/{x}/{y}")]),
                    "minzoom" := JNumber(0), "maxzoom" := JNumber(12)];
    assert IsCompleteTileJson(json);
    var info := new RemoteTileInfo.FromJson(json);
    urls, lo, hi, e, replace := info.baseURLs, info.minZoom, info.maxZoom, info.ext, info.replaceURL;
  }

  /** A non-string entry in `tiles` stops the construction after the strings before it. */
  method PartialTileJsonExample() returns (urls: seq<string>, lo: int, hi: int, e: Option<string>)
    ensures urls == ["http://a/"] && lo == 0 && hi == 0 && e == None
  {
    var json := map["tiles" := JArray([JString("http://a/"), JNumber(5), JString("http://b/")]),
                    "minzoom" := JNumber(3), "maxzoom" := JNumber(12)];
    var info := new RemoteTileInfo.FromJson(json);
    urls, lo, hi, e := info.baseURLs, info.minZoom, info.maxZoom, info.ext;
  }

  /** Without `tiles` nothing is assigned, and no error reaches the caller. */
  method MissingTilesExample() returns (urls: seq<string>, lo: int, hi: int, e: Option<string>)
    ensures urls == [] && lo == 0 && hi == 0 && e == None
  {
    var json := map["minzoom" := JNumber(0), "maxzoom" := JNumber(12)];
    var info := new RemoteTileInfo.FromJson(json);
    urls, lo, hi, e := info.baseURLs, info.minZoom, info.maxZoom, info.ext;
  }

  /**
   * The JSON constructor never turns substitution on, so a TileJSON template
   * gets the tile path appended after its placeholders.
   */
  method TileJsonTemplateExample() returns (url: string)
    ensures url == "http://x/{z}/{x}/{y}3/1/2.png"
  {
    var json := map["tiles" := JArray([JString("http://x/{z}/{x}/{y}")]),
                    "minzoom" := JNumber(0), "maxzoom" := JNumber(12)];
    assert IsCompleteTileJson(json);
    var info := new RemoteTileInfo.FromJson(json);
    assert info.baseURLs == ["http://x/{z}/{x}/{y}"] && info.ext == Some("png") && !info.replaceURL;
    assert Decimal(1) == "1" && Decimal(2) == "2" && Decimal(3) == "3";
    assert info.TilePath(1, 2, 3) == "http://x/{z}/{x}/{y}3/1/2";
    url := info.BuildURL(1, 2, 3);
  }
}
