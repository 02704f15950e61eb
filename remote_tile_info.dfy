/**
 * The contact information of a remote tile source, and how a tile address
 * (column x, row y, zoom level, optional animation frame) is turned into the
 * URL to fetch and the name to cache the result under.
 */
module Maply {
  import opened Wrappers
  import opened JavaText
  import opened OrgJson

  /** The state the JSON constructor leaves in the four fields it may assign. */
  datatype TileJsonFields = TileJsonFields(baseURLs: seq<string>, minZoom: int, maxZoom: int, ext: Option<string>)

  /** A TileJSON object holding every entry the constructor reads, each of the expected type. */
  predicate IsCompleteTileJson(json: map<string, Json>) {
    && "tiles" in json && json["tiles"].JArray?
    && (forall i :: 0 <= i < |json["tiles"].items| ==> json["tiles"].items[i].JString?)
    && "minzoom" in json && json["minzoom"].JNumber?
    && "maxzoom" in json && json["maxzoom"].JNumber?
  }

  /** The longest run of strings at the front of `items`: what the `tiles` loop adds before it stops. */
  function LeadingStrings(items: seq<Json>): (urls: seq<string>)
    ensures |urls| <= |items|
    ensures forall i :: 0 <= i < |urls| ==> items[i] == JString(urls[i])
    ensures |urls| < |items| ==> !items[|urls|].JString?
  {
    if items == [] || !items[0].JString? then [] else [items[0].s] + LeadingStrings(items[1..])
  }

  /**
   * The fields after the JSON constructor: each read that fails ends the
   * construction, and the fields keep whatever was assigned before it.
   */
  function ReadTileJson(json: map<string, Json>): (r: TileJsonFields)
    ensures r.ext == None || r.ext == Some("png")
    ensures r.ext.Some? <==> IsCompleteTileJson(json)
    ensures IsCompleteTileJson(json) ==>
      && |r.baseURLs| == |json["tiles"].items|
      && (forall i :: 0 <= i < |r.baseURLs| ==> json["tiles"].items[i] == JString(r.baseURLs[i]))
      && r.minZoom == json["minzoom"].n
      && r.maxZoom == json["maxzoom"].n
    ensures !IsCompleteTileJson(json) ==> r.maxZoom == 0 && r.ext == None
    ensures !("tiles" in json && json["tiles"].JArray?) ==> r == TileJsonFields([], 0, 0, None)
    ensures "tiles" in json && json["tiles"].JArray? ==> r.baseURLs == LeadingStrings(json["tiles"].items)
    ensures "tiles" in json && json["tiles"].JArray?
            && (forall i :: 0 <= i < |json["tiles"].items| ==> json["tiles"].items[i].JString?)
            && "minzoom" in json && json["minzoom"].JNumber?
            ==> r.minZoom == json["minzoom"].n
    ensures r.minZoom != 0 ==>
      && "tiles" in json && json["tiles"].JArray?
      && |r.baseURLs| == |json["tiles"].items|
      && "minzoom" in json && json["minzoom"] == JNumber(r.minZoom)
  {
    match GetJSONArray(json, "tiles")
    case None => TileJsonFields([], 0, 0, None)
    case Some(items) =>
      var urls := LeadingStrings(items);
      if |urls| < |items| then TileJsonFields(urls, 0, 0, None)
      else
        match GetInt(json, "minzoom")
        case None => TileJsonFields(urls, 0, 0, None)
        case Some(lo) =>
          match GetInt(json, "maxzoom")
          case None => TileJsonFields(urls, lo, 0, None)
          case Some(hi) => TileJsonFields(urls, lo, hi, Some("png"))
  }

  /**
   * Java string concatenation renders a null String as the text "null", so a
   * null and the string "null" give the same text.
   */
  function ConcatText(s: Option<string>): (t: string)
    ensures s.Some? ==> t == s.value
    ensures t == "null" <==> s == None || s == Some("null")
  {
    match s
    case None => "null"
    case Some(t) => t
  }

  /**
   * What substitution means, read in one pass from left to right: each `{x}`, `{y}`
   * and `{z}` of the template becomes the decimal text of its coordinate, and every
   * other character is kept.
   */
  function FillTemplate(template: string, x: int, y: int, level: int): string
    decreases |template|
  {
    if |template| == 0 then []
    else if StartsWith(template, "{x}") then Decimal(x) + FillTemplate(template[3..], x, y, level)
    else if StartsWith(template, "{y}") then Decimal(y) + FillTemplate(template[3..], x, y, level)
    else if StartsWith(template, "{z}") then Decimal(level) + FillTemplate(template[3..], x, y, level)
    else [template[0]] + FillTemplate(template[1..], x, y, level)
  }

  predicate HasPlaceholder(s: string) {
    Contains(s, "{x}") || Contains(s, "{y}") || Contains(s, "{z}")
  }

  lemma DecimalAvoidsPlaceholders(n: int)
    ensures Disjoint("{x}", Decimal(n)) && Disjoint("{y}", Decimal(n)) && Disjoint("{z}", Decimal(n))
  {
    var d := Decimal(n);
    forall i, j | 0 <= i < 3 && 0 <= j < |d|
      ensures "{x}"[i] != d[j] && "{y}"[i] != d[j] && "{z}"[i] != d[j]
    {
      assert IsDecimalChar(d[j]);
    }
  }

  /**
   * Java's `.replace("{x}", "" + x).replace("{y}", "" + y).replace("{z}", "" + level)`,
   * in that order. Every placeholder is replaced, none is created by a later step,
   * and a template without placeholders is used as it is.
   */
  function Substitute(template: string, x: int, y: int, level: int): (r: string)
    ensures !HasPlaceholder(r)
    ensures !HasPlaceholder(template) ==> r == template
  {
    var X, Y, Z := Decimal(x), Decimal(y), Decimal(level);
    var s1 := ReplaceAll(template, "{x}", X);
    var s2 := ReplaceAll(s1, "{y}", Y);
    DecimalAvoidsPlaceholders(x);
    DecimalAvoidsPlaceholders(y);
    DecimalAvoidsPlaceholders(level);
    ReplaceAllRemoves(template, "{x}", X);
    ReplaceAllNoNewOccurrence(s1, "{y}", Y, "{x}");
    ReplaceAllNoNewOccurrence(s2, "{z}", Z, "{x}");
    ReplaceAllRemoves(s1, "{y}", Y);
    ReplaceAllNoNewOccurrence(s2, "{z}", Z, "{y}");
    ReplaceAllRemoves(s2, "{z}", Z);
    ReplaceAllAbsent(template, "{x}", X);
    ReplaceAllAbsent(template, "{y}", Y);
    ReplaceAllAbsent(template, "{z}", Z);
    ReplaceAll(s2, "{z}", Z)
  }

  lemma SubstituteColumnHead(t: string, x: int, y: int, level: int)
    ensures Substitute("{x}" + t, x, y, level) == Decimal(x) + Substitute(t, x, y, level)
  {
    var X, Y, Z := Decimal(x), Decimal(y), Decimal(level);
    DecimalHasNoSeparator(x);
    ReplaceAllHit(t, "{x}", X);
    var s1 := ReplaceAll(t, "{x}", X);
    ReplaceAllSkipsFree(X, s1, "{y}", Y);
    ReplaceAllSkipsFree(X, ReplaceAll(s1, "{y}", Y), "{z}", Z);
  }

  lemma SubstituteRowHead(t: string, x: int, y: int, level: int)
    ensures Substitute("{y}" + t, x, y, level) == Decimal(y) + Substitute(t, x, y, level)
  {
    var X, Y, Z := Decimal(x), Decimal(y), Decimal(level);
    DecimalHasNoSeparator(y);
    ReplaceAllMiss("{y}", t, "{x}", X);
    var s1 := ReplaceAll(t, "{x}", X);
    ReplaceAllHit(s1, "{y}", Y);
    ReplaceAllSkipsFree(Y, ReplaceAll(s1, "{y}", Y), "{z}", Z);
  }

  lemma SubstituteLevelHead(t: string, x: int, y: int, level: int)
    ensures Substitute("{z}" + t, x, y, level) == Decimal(level) + Substitute(t, x, y, level)
  {
    var X, Y, Z := Decimal(x), Decimal(y), Decimal(level);
    ReplaceAllMiss("{z}", t, "{x}", X);
    var s1 := ReplaceAll(t, "{x}", X);
    ReplaceAllMiss("{z}", s1, "{y}", Y);
    ReplaceAllHit(ReplaceAll(s1, "{y}", Y), "{z}", Z);
  }

  /** A character that does not start a placeholder goes through all three replacements unchanged. */
  lemma SubstituteLiteralHead(t: string, x: int, y: int, level: int)
    requires |t| > 0 && !StartsWith(t, "{x}") && !StartsWith(t, "{y}") && !StartsWith(t, "{z}")
    ensures Substitute(t, x, y, level) == [t[0]] + Substitute(t[1..], x, y, level)
  {
    var X, Y, Z := Decimal(x), Decimal(y), Decimal(level);
    DecimalAvoidsPlaceholders(x);
    DecimalAvoidsPlaceholders(y);
    var s1, r1 := ReplaceAll(t, "{x}", X), ReplaceAll(t[1..], "{x}", X);
    assert s1 == [t[0]] + r1;
    PrefixSurvivesReplace(t, "{x}", X, "{y}");
    PrefixSurvivesReplace(t, "{x}", X, "{z}");
    var s2, r2 := ReplaceAll(s1, "{y}", Y), ReplaceAll(r1, "{y}", Y);
    assert s1[1..] == r1;
    assert s2 == [t[0]] + r2;
    PrefixSurvivesReplace(s1, "{y}", Y, "{z}");
    assert s2[1..] == r2;
  }

  /**
   * The three replacements in a row do exactly what the one-pass reading says,
   * for every template: the URL is fixed character by character.
   */
  lemma {:induction false} SubstituteFillsTemplate(template: string, x: int, y: int, level: int)
    ensures Substitute(template, x, y, level) == FillTemplate(template, x, y, level)
    decreases |template|
  {
    var t := template;
    if |t| == 0 {
    } else if StartsWith(t, "{x}") {
      SubstituteFillsTemplate(t[3..], x, y, level);
      assert t == "{x}" + t[3..];
      SubstituteColumnHead(t[3..], x, y, level);
    } else if StartsWith(t, "{y}") {
      SubstituteFillsTemplate(t[3..], x, y, level);
      assert t == "{y}" + t[3..];
      SubstituteRowHead(t[3..], x, y, level);
    } else if StartsWith(t, "{z}") {
      SubstituteFillsTemplate(t[3..], x, y, level);
      assert t == "{z}" + t[3..];
      SubstituteLevelHead(t[3..], x, y, level);
    } else {
      SubstituteFillsTemplate(t[1..], x, y, level);
      SubstituteLiteralHead(t, x, y, level);
    }
  }

  /** Template text without `{` is copied into the URL as it is. */
  lemma {:induction false} FillTemplateLiteral(a: string, t: string, x: int, y: int, level: int)
    requires '{' !in a
    ensures FillTemplate(a + t, x, y, level) == a + FillTemplate(t, x, y, level)
    decreases |a|
  {
    var F := FillTemplate(t, x, y, level);
    if |a| > 0 {
      var s := a + t;
      FillTemplateKeepsChar(s, x, y, level);
      assert s[1..] == a[1..] + t;
      FillTemplateLiteral(a[1..], t, x, y, level);
      assert FillTemplate(s, x, y, level) == [a[0]] + (a[1..] + F);
      Regroup([a[0]], a[1..], F);
      HeadTail(a);
    } else {
      assert a + t == t && a + F == F;
    }
  }

  /** A character other than `{` is copied as it is, and reading goes on after it. */
  lemma FillTemplateKeepsChar(s: string, x: int, y: int, level: int)
    requires |s| > 0 && s[0] != '{'
    ensures FillTemplate(s, x, y, level) == [s[0]] + FillTemplate(s[1..], x, y, level)
  {
    if |s| >= 3 {
      assert s[..3][0] == s[0];
    }
  }

  /** Literal text, then `{x}`: the text is kept and `{x}` becomes the column. */
  lemma FillColumnStep(a: string, t: string, x: int, y: int, level: int)
    requires '{' !in a
    ensures FillTemplate(a + "{x}" + t, x, y, level) == a + Decimal(x) + FillTemplate(t, x, y, level)
  {
    var u := "{x}" + t;
    assert u[..3] == "{x}" && u[3..] == t;
    FillTemplateLiteral(a, u, x, y, level);
    assert a + "{x}" + t == a + u;
    assert a + (Decimal(x) + FillTemplate(t, x, y, level)) == a + Decimal(x) + FillTemplate(t, x, y, level);
  }

  /** Literal text, then `{y}`: the text is kept and `{y}` becomes the row. */
  lemma FillRowStep(a: string, t: string, x: int, y: int, level: int)
    requires '{' !in a
    ensures FillTemplate(a + "{y}" + t, x, y, level) == a + Decimal(y) + FillTemplate(t, x, y, level)
  {
    var u := "{y}" + t;
    assert u[..3] == "{y}" && u[3..] == t;
    FillTemplateLiteral(a, u, x, y, level);
    assert a + "{y}" + t == a + u;
    assert a + (Decimal(y) + FillTemplate(t, x, y, level)) == a + Decimal(y) + FillTemplate(t, x, y, level);
  }

  /** Literal text, then `{z}`: the text is kept and `{z}` becomes the level. */
  lemma FillLevelStep(a: string, t: string, x: int, y: int, level: int)
    requires '{' !in a
    ensures FillTemplate(a + "{z}" + t, x, y, level) == a + Decimal(level) + FillTemplate(t, x, y, level)
  {
    var u := "{z}" + t;
    assert u[..3] == "{z}" && u[3..] == t;
    FillTemplateLiteral(a, u, x, y, level);
    assert a + "{z}" + t == a + u;
    assert a + (Decimal(level) + FillTemplate(t, x, y, level)) == a + Decimal(level) + FillTemplate(t, x, y, level);
  }

  lemma FillLevelColumnRow(a: string, b: string, c: string, x: int, y: int, level: int)
    requires '{' !in a && '{' !in b && '{' !in c
    ensures FillTemplate(a + "{z}" + b + "{x}" + c + "{y}", x, y, level)
            == a + Decimal(level) + b + Decimal(x) + c + Decimal(y)
  {
    var u2 := c + "{y}" + [];
    var u1 := b + "{x}" + u2;
    FillRowStep(c, [], x, y, level);
    FillColumnStep(b, u2, x, y, level);
    FillLevelStep(a, u1, x, y, level);
    RegroupSix(a, "{z}", b, "{x}", c, "{y}");
    RegroupSix(a, Decimal(level), b, Decimal(x), c, Decimal(y));
  }

  lemma FillLevelRowColumn(a: string, b: string, c: string, x: int, y: int, level: int)
    requires '{' !in a && '{' !in b && '{' !in c
    ensures FillTemplate(a + "{z}" + b + "{y}" + c + "{x}", x, y, level)
            == a + Decimal(level) + b + Decimal(y) + c + Decimal(x)
  {
    var u2 := c + "{x}" + [];
    var u1 := b + "{y}" + u2;
    FillColumnStep(c, [], x, y, level);
    FillRowStep(b, u2, x, y, level);
    FillLevelStep(a, u1, x, y, level);
    RegroupSix(a, "{z}", b, "{y}", c, "{x}");
    RegroupSix(a, Decimal(level), b, Decimal(y), c, Decimal(x));
  }

  /**
   * The usual `{z}/{x}/{y}` template: with literal text a, b, c around the
   * placeholders, substitution yields a, level, b, x, c, y in that order.
   */
  lemma SubstituteLevelColumnRow(a: string, b: string, c: string, x: int, y: int, level: int)
    requires '{' !in a && '{' !in b && '{' !in c
    ensures Substitute(a + "{z}" + b + "{x}" + c + "{y}", x, y, level)
            == a + Decimal(level) + b + Decimal(x) + c + Decimal(y)
  {
    SubstituteFillsTemplate(a + "{z}" + b + "{x}" + c + "{y}", x, y, level);
    FillLevelColumnRow(a, b, c, x, y, level);
  }

  /** The `{z}/{y}/{x}` order some tile servers use: substitution yields a, level, b, y, c, x. */
  lemma SubstituteLevelRowColumn(a: string, b: string, c: string, x: int, y: int, level: int)
    requires '{' !in a && '{' !in b && '{' !in c
    ensures Substitute(a + "{z}" + b + "{y}" + c + "{x}", x, y, level)
            == a + Decimal(level) + b + Decimal(y) + c + Decimal(x)
  {
    SubstituteFillsTemplate(a + "{z}" + b + "{y}" + c + "{x}", x, y, level);
    FillLevelRowColumn(a, b, c, x, y, level);
  }

  lemma DecimalHasNoSeparator(n: int)
    ensures '_' !in Decimal(n) && '.' !in Decimal(n) && '/' !in Decimal(n) && '{' !in Decimal(n)
  {
    var d := Decimal(n);
    forall j | 0 <= j < |d| ensures d[j] != '_' && d[j] != '.' && d[j] != '/' && d[j] != '{' {
      assert IsDecimalChar(d[j]);
    }
  }

  /** A cache name: a path from the root, then `.` and the extension text. */
  lemma NameWithExtension(stem: string, e: string)
    requires |stem| > 0 && stem[0] == '/'
    ensures (stem + "." + e)[0] == '/'
    ensures EndsWith(stem + "." + e, "." + e)
  {
    EndsWithAppended(stem, "." + e);
    assert stem + "." + e == stem + ("." + e);
  }

  /** A URL: the tile path, then `.` and the extension. */
  lemma PathWithExtension(path: string, e: string)
    ensures StartsWith(path + "." + e, path)
    ensures (path + "." + e)[|path|..] == "." + e
  {
    assert (path + "." + e)[..|path|] == path;
  }

  class RemoteTileInfo {
    var baseURLs: seq<string>
    var ext: Option<string>
    var minZoom: int
    var maxZoom: int
    var pixelsPerSide: int
    var replaceURL: bool

    /** A source that fetches from one base URL; template substitution is on when it names `{x}` or `{y}`. */
    constructor FromBase(inBase: string, inExt: Option<string>, inMinZoom: int, inMaxZoom: int)
      ensures baseURLs == [inBase] && ext == inExt
      ensures minZoom == inMinZoom && maxZoom == inMaxZoom
      ensures pixelsPerSide == 256
      ensures replaceURL <==> Contains(inBase, "{x}") || Contains(inBase, "{y}")
    {
      baseURLs, ext, minZoom, maxZoom, pixelsPerSide, replaceURL := [], None, 0, 0, 256, false;
      new;
      if Contains(inBase, "{x}") || Contains(inBase, "{y}") {
        replaceURL := true;
      }
      baseURLs := baseURLs + [inBase];
      ext := inExt;
      minZoom := inMinZoom;
      maxZoom := inMaxZoom;
    }

    /**
     * A source described by a TileJSON object. A missing or mistyped entry ends
     * the construction silently, keeping what was assigned so far.
     */
    constructor FromJson(json: map<string, Json>)
      ensures TileJsonFields(baseURLs, minZoom, maxZoom, ext) == ReadTileJson(json)
      ensures pixelsPerSide == 256 && !replaceURL
    {
      baseURLs, ext, minZoom, maxZoom, pixelsPerSide, replaceURL := [], None, 0, 0, 256, false;
      new;
      var tileSources := GetJSONArray(json, "tiles");
      if tileSources.Some? {
        var items := tileSources.value;
        var ii := 0;
        var failed := false;
        while ii < |items| && !failed
          invariant 0 <= ii <= |items|
          invariant |baseURLs| == ii
          invariant forall k :: 0 <= k < ii ==> items[k] == JString(baseURLs[k])
          invariant failed ==> ii < |items| && !items[ii].JString?
          invariant ext == None && minZoom == 0 && maxZoom == 0
          invariant pixelsPerSide == 256 && !replaceURL
          decreases |items| - ii, if failed then 0 else 1
        {
          var tileURL := GetString(items, ii);
          if tileURL.None? {
            failed := true;
          } else {
            baseURLs := baseURLs + [tileURL.value];
            ii := ii + 1;
          }
        }
        assert baseURLs == LeadingStrings(items) by {
          LeadingStringsUnique(items, baseURLs);
        }
        if !failed {
          var lo := GetInt(json, "minzoom");
          if lo.Some? {
            minZoom := lo.value;
            var hi := GetInt(json, "maxzoom");
            if hi.Some? {
              maxZoom := hi.value;
              ext := Some("png");
            }
          }
        }
      }
    }

    /** The mirror that serves column `x`: Java's `x % baseURLs.size()`, which must be a valid index. */
    function Mirror(x: int): (m: string)
      reads this
      requires |baseURLs| > 0 && JavaRem(x, |baseURLs|) >= 0
      ensures x >= 0 ==> m == baseURLs[x % |baseURLs|]
      ensures x < 0 ==> m == baseURLs[0]
    {
      baseURLs[JavaRem(x, |baseURLs|)]
    }

    /** The URL before the extension: the substituted template, or the mirror followed by `level/x/y`. */
    function TilePath(x: int, y: int, level: int): (path: string)
      reads this
      requires |baseURLs| > 0 && JavaRem(x, |baseURLs|) >= 0
      ensures replaceURL ==> path == FillTemplate(Mirror(x), x, y, level)
      ensures replaceURL ==> !HasPlaceholder(path)
      ensures replaceURL && !HasPlaceholder(Mirror(x)) ==> path == Mirror(x)
      ensures !replaceURL ==> StartsWith(path, Mirror(x)) && |path| > |Mirror(x)|
      ensures !replaceURL ==> path == Mirror(x) + Decimal(level) + "/" + Decimal(x) + "/" + Decimal(y)
    {
      if replaceURL then
        SubstituteFillsTemplate(Mirror(x), x, y, level);
        Substitute(Mirror(x), x, y, level)
      else
        var path := Mirror(x) + Decimal(level) + "/" + Decimal(x) + "/" + Decimal(y);
        assert path[..|Mirror(x)|] == Mirror(x);
        path
    }

    /** The URL to fetch tile (x, y, level) from. */
    function BuildURL(x: int, y: int, level: int): (url: string)
      reads this
      requires |baseURLs| > 0 && JavaRem(x, |baseURLs|) >= 0
      ensures StartsWith(url, TilePath(x, y, level))
      ensures ext.None? ==> url == TilePath(x, y, level)
      ensures ext.Some? ==> url[|TilePath(x, y, level)|..] == "." + ext.value
    {
      var path := TilePath(x, y, level);
      match ext
      case None => path
      case Some(e) =>
        PathWithExtension(path, e);
        path + "." + e
    }

    /** The cache name of tile (x, y, level). */
    function BuildCacheName(x: int, y: int, level: int): (name: string)
      reads this
      ensures name == "/" + Decimal(level) + "_" + Decimal(x) + "_" + Decimal(y) + "." + ConcatText(ext)
      ensures |name| > 0 && name[0] == '/'
      ensures ext.Some? ==> EndsWith(name, "." + ext.value)
      ensures ext.None? ==> EndsWith(name, ".null")
    {
      var stem := "/" + Decimal(level) + "_" + Decimal(x) + "_" + Decimal(y);
      var e := ConcatText(ext);
      NameWithExtension(stem, e);
      stem + "." + e
    }

    /** The cache name of one animation frame of tile (x, y, level); frame -1 stands for "no frame". */
    function BuildFrameCacheName(x: int, y: int, level: int, frame: int): (name: string)
      reads this
      ensures frame == -1 ==> name == BuildCacheName(x, y, level)
      ensures frame != -1 ==>
        name == "/" + Decimal(level) + "_" + Decimal(x) + "_" + Decimal(y) + "_" + Decimal(frame) + "." + ConcatText(ext)
      ensures |name| > 0 && name[0] == '/'
      ensures ext.Some? ==> EndsWith(name, "." + ext.value)
      ensures ext.None? ==> EndsWith(name, ".null")
    {
      if frame == -1 then BuildCacheName(x, y, level)
      else
        var stem := "/" + Decimal(level) + "_" + Decimal(x) + "_" + Decimal(y) + "_" + Decimal(frame);
        var e := ConcatText(ext);
        NameWithExtension(stem, e);
        stem + "." + e
    }
  }

  /** LeadingStrings is the only sequence of strings that covers the front of `items` up to the first non-string. */
  lemma {:induction false} LeadingStringsUnique(items: seq<Json>, urls: seq<string>)
    requires |urls| <= |items|
    requires forall k :: 0 <= k < |urls| ==> items[k] == JString(urls[k])
    requires |urls| < |items| ==> !items[|urls|].JString?
    ensures LeadingStrings(items) == urls
    decreases |urls|
  {
    if |urls| > 0 {
      LeadingStringsUnique(items[1..], urls[1..]);
    }
  }

  /** Cache names are unique: distinct tiles get distinct names, whatever the extension. */
  lemma CacheNameUnique(info: RemoteTileInfo, x: int, y: int, level: int, x': int, y': int, level': int)
    ensures info.BuildCacheName(x, y, level) == info.BuildCacheName(x', y', level')
            <==> x == x' && y == y' && level == level'
  {
    var e := ConcatText(info.ext);
    var L, X, Y := Decimal(level), Decimal(x), Decimal(y);
    var L', X', Y' := Decimal(level'), Decimal(x'), Decimal(y');
    DecimalHasNoSeparator(level); DecimalHasNoSeparator(x); DecimalHasNoSeparator(y);
    DecimalHasNoSeparator(level'); DecimalHasNoSeparator(x'); DecimalHasNoSeparator(y');
    var s, s' := "/" + L, "/" + L';
    var q, q' := s + "_" + X + "_" + Y, s' + "_" + X' + "_" + Y';
    assert '.' !in q && '.' !in q';
    SplitAtSeparator(q, e, q', e, '.');
    SplitAtLastSeparator(s + "_" + X, Y, s' + "_" + X', Y', '_');
    SplitAtLastSeparator(s, X, s' , X', '_');
    CancelPrefix("/", L, L');
    DecimalInjective(level, level');
    DecimalInjective(x, x');
    DecimalInjective(y, y');
  }

  /** The name of a real frame never equals the name of a tile without one. */
  lemma FrameNameIsNotPlainName(info: RemoteTileInfo, x: int, y: int, level: int, frame: int, x': int, y': int, level': int)
    requires frame != -1
    ensures info.BuildFrameCacheName(x, y, level, frame) != info.BuildCacheName(x', y', level')
  {
    var e := ConcatText(info.ext);
    var L, X, Y, F := Decimal(level), Decimal(x), Decimal(y), Decimal(frame);
    var L', X', Y' := Decimal(level'), Decimal(x'), Decimal(y');
    DecimalHasNoSeparator(level); DecimalHasNoSeparator(x); DecimalHasNoSeparator(y); DecimalHasNoSeparator(frame);
    DecimalHasNoSeparator(level'); DecimalHasNoSeparator(x'); DecimalHasNoSeparator(y');
    var s, s' := "/" + L, "/" + L';
    var r, r' := s + "_" + X, s' + "_" + X';
    var q, q' := r + "_" + Y, r' + "_" + Y';
    var framed := q + "_" + F;
    assert '.' !in framed && '.' !in q';
    SplitAtSeparator(framed, e, q', e, '.');
    SplitAtLastSeparator(q, F, r', Y', '_');
    SplitAtLastSeparator(r, Y, s', X', '_');
    assert r[|s|] == '_' && '_' !in s';
  }

  /** Two names of real frames are equal only for the same tile and frame. */
  lemma FramedNamesUnique(info: RemoteTileInfo, x: int, y: int, level: int, frame: int,
                          x': int, y': int, level': int, frame': int)
    requires frame != -1 && frame' != -1
    ensures info.BuildFrameCacheName(x, y, level, frame) == info.BuildFrameCacheName(x', y', level', frame')
            ==> x == x' && y == y' && level == level' && frame == frame'
  {
    var e := ConcatText(info.ext);
    var L, X, Y, F := Decimal(level), Decimal(x), Decimal(y), Decimal(frame);
    var L', X', Y', F' := Decimal(level'), Decimal(x'), Decimal(y'), Decimal(frame');
    DecimalHasNoSeparator(level); DecimalHasNoSeparator(x); DecimalHasNoSeparator(y); DecimalHasNoSeparator(frame);
    DecimalHasNoSeparator(level'); DecimalHasNoSeparator(x'); DecimalHasNoSeparator(y'); DecimalHasNoSeparator(frame');
    var s, s' := "/" + L, "/" + L';
    var r, r' := s + "_" + X, s' + "_" + X';
    var q, q' := r + "_" + Y, r' + "_" + Y';
    assert '.' !in q + "_" + F && '.' !in q' + "_" + F';
    SplitAtSeparator(q + "_" + F, e, q' + "_" + F', e, '.');
    SplitAtLastSeparator(q, F, q', F', '_');
    SplitAtLastSeparator(r, Y, r', Y', '_');
    SplitAtLastSeparator(s, X, s', X', '_');
    CancelPrefix("/", L, L');
    DecimalInjective(level, level');
    DecimalInjective(x, x');
    DecimalInjective(y, y');
    DecimalInjective(frame, frame');
  }

  /**
   * Over every tile and frame the cache names are unique, and frame -1 gives
   * the same name as the three-argument form.
   */
  lemma FrameCacheNameUnique(info: RemoteTileInfo, x: int, y: int, level: int, frame: int,
                             x': int, y': int, level': int, frame': int)
    ensures info.BuildFrameCacheName(x, y, level, frame) == info.BuildFrameCacheName(x', y', level', frame')
            <==> x == x' && y == y' && level == level' && frame == frame'
  {
    if frame == -1 && frame' == -1 {
      CacheNameUnique(info, x, y, level, x', y', level');
    } else if frame == -1 {
      FrameNameIsNotPlainName(info, x', y', level', frame', x, y, level);
    } else if frame' == -1 {
      FrameNameIsNotPlainName(info, x, y, level, frame, x', y', level');
    } else {
      FramedNamesUnique(info, x, y, level, frame, x', y', level', frame');
    }
  }

  /**
   * Without template substitution, the path identifies the tile: the row and the
   * column are read back after the last two `/`, the column fixes the mirror, and
   * the level is what lies between the mirror and the column.
   */
  lemma ConcatenatedPathUnique(info: RemoteTileInfo, x: int, y: int, level: int, x': int, y': int, level': int)
    requires |info.baseURLs| > 0
    requires JavaRem(x, |info.baseURLs|) >= 0 && JavaRem(x', |info.baseURLs|) >= 0
    requires !info.replaceURL
    ensures info.TilePath(x, y, level) == info.TilePath(x', y', level') ==> x == x' && y == y' && level == level'
  {
    var m, m' := info.Mirror(x), info.Mirror(x');
    var L, X, Y := Decimal(level), Decimal(x), Decimal(y);
    var L', X', Y' := Decimal(level'), Decimal(x'), Decimal(y');
    DecimalHasNoSeparator(x); DecimalHasNoSeparator(y);
    DecimalHasNoSeparator(x'); DecimalHasNoSeparator(y');
    assert info.TilePath(x, y, level) == m + L + "/" + X + "/" + Y;
    assert info.TilePath(x', y', level') == m' + L' + "/" + X' + "/" + Y';
    SplitPathFields(m + L, X, Y, m' + L', X', Y');
    DecimalInjective(x, x');
    CancelPrefix(m, L, L');
    DecimalInjective(level, level');
    DecimalInjective(y, y');
  }

  /** `head/column/row` is cut back into its three fields at the last two `/`. */
  lemma SplitPathFields(head: string, X: string, Y: string, head': string, X': string, Y': string)
    requires '/' !in X && '/' !in Y && '/' !in X' && '/' !in Y'
    ensures head + "/" + X + "/" + Y == head' + "/" + X' + "/" + Y' ==> head == head' && X == X' && Y == Y'
  {
    SplitAtLastSeparator(head + "/" + X, Y, head' + "/" + X', Y', '/');
    SplitAtLastSeparator(head, X, head', X', '/');
  }

  /**
   * Without template substitution, distinct tiles get distinct URLs, with or
   * without an extension.
   */
  lemma ConcatenatedURLUnique(info: RemoteTileInfo, x: int, y: int, level: int, x': int, y': int, level': int)
    requires |info.baseURLs| > 0
    requires JavaRem(x, |info.baseURLs|) >= 0 && JavaRem(x', |info.baseURLs|) >= 0
    requires !info.replaceURL
    ensures info.BuildURL(x, y, level) == info.BuildURL(x', y', level')
            <==> x == x' && y == y' && level == level'
  {
    ConcatenatedPathUnique(info, x, y, level, x', y', level');
    var suffix := if info.ext.Some? then "." + info.ext.value else "";
    URLIsPathAndSuffix(info, x, y, level);
    URLIsPathAndSuffix(info, x', y', level');
    CancelSuffix(info.TilePath(x, y, level), info.TilePath(x', y', level'), suffix);
  }

  lemma URLIsPathAndSuffix(info: RemoteTileInfo, x: int, y: int, level: int)
    requires |info.baseURLs| > 0 && JavaRem(x, |info.baseURLs|) >= 0
    ensures info.BuildURL(x, y, level)
            == info.TilePath(x, y, level) + (if info.ext.Some? then "." + info.ext.value else "")
  {
  }
}
