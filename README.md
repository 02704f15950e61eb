# RemoteTileInfo: tile URLs and cache names for a remote tile source

This project models `RemoteTileInfo` from the WhirlyGlobe-Maply Android SDK in Dafny.
The class holds the contact information of a remote map-tile source:
- the mirror base URLs;
- the file extension;
- the minimum and maximum zoom levels;
- the tile size;
- whether the base URLs are templates.

From a tile address (column `x`, row `y`, zoom `level`, optional animation `frame`) it builds two strings:
- the URL to fetch the tile from;
- the name to store the tile under in the cache.

Files:
- `java_text.dfy` (module `JavaText`) writes out the `java.lang` behaviour the class relies on:
  - `"" + n` for an int (`Decimal`, with its inverse `ParseDecimal`);
  - `String.contains` (`Contains`);
  - `String.replace` with a literal target (`ReplaceAll`);
  - the truncating remainder `%` (`JavaRem`).
- `org_json.dfy` (module `OrgJson`) is a parsed JSON value. Its lookups `GetJSONArray`, `GetString` and `GetInt` return `None` where the org.json library would throw a JSON exception.
- `wrappers.dfy` holds `Option`. It stands for a Java `String` that may be null, and for a lookup that may fail.
- `remote_tile_info.dfy` (module `Maply`) holds the class `RemoteTileInfo`. Its fields are `baseURLs`, `ext`, `minZoom`, `maxZoom`, `pixelsPerSide` and `replaceURL`.
  - The two constructors assign these fields step by step, as the Java does.
  - `BuildURL`, `BuildCacheName` and `BuildFrameCacheName` are functions of the fields. `BuildFrameCacheName` is the four-argument `buildCacheName` overload.
  - The module also holds the lemmas about the class.
- `tile_examples.dfy` (module `TileExamples`) builds concrete sources and states the exact strings they produce.

Where the code and the usual description of the class differ, the model follows the code:
- A JSON description that lacks an entry does not produce an empty or invalid source. Every field keeps what was assigned before the failing read. So `baseURLs` can be a strict prefix of `tiles`, `minZoom` can be set while `maxZoom` is 0, and `ext` stays null.
- The JSON constructor never sets `replaceURL`. A TileJSON template such as `http://x/{z}/{x}/{y}` is therefore used as a plain base. The tile path is appended after the placeholders (`TileExamples.TileJsonTemplateExample`).
- Nothing checks `minZoom <= maxZoom`. Nothing keeps `baseURLs` non-empty: a JSON `tiles` array may be empty.
- `buildURL` does not accept every column. It throws when `baseURLs` is empty (`x % 0`). It also throws when Java's remainder `x % size` is negative. Its precondition says exactly this. `JavaText.JavaRemNonNegative` shows that the remainder is negative exactly for a negative `x` that is not a multiple of the mirror count. A negative multiple of the mirror count is accepted and uses the first mirror.
- Only `{x}` or `{y}` in the single base URL turns substitution on. A base that names only `{z}` keeps `{z}` literally in the URL (`TileExamples.LevelOnlyTemplateExample`).

## Model

| member | source | states |
|---|---|---|
| `Maply.RemoteTileInfo.FromBase` | WhirlyGlobeSrc/Android/src/com/mousebird/maply/RemoteTileInfo.java:32-41 | `baseURLs == [inBase]`. `ext`, `minZoom` and `maxZoom` are stored as given, unchecked. `pixelsPerSide` stays 256. `replaceURL` holds exactly when `inBase` contains `{x}` or `{y}`. |
| `Maply.RemoteTileInfo.FromJson` | WhirlyGlobeSrc/Android/src/com/mousebird/maply/RemoteTileInfo.java:49-67 | The loop over `tiles` and the zoom reads stop at the first failed lookup. The fields are then exactly `ReadTileJson(json)`. `replaceURL` stays false and `pixelsPerSide` stays 256. No error escapes. |
| `Maply.LeadingStrings` | WhirlyGlobeSrc/Android/src/com/mousebird/maply/RemoteTileInfo.java:54-58 | The strings the `tiles` loop appends before it stops: the longest run of string entries at the front, in order. The entry after the run, if any, is not a string. |
| `Maply.ReadTileJson` | WhirlyGlobeSrc/Android/src/com/mousebird/maply/RemoteTileInfo.java:51-66 | `ext` is `"png"` exactly when `tiles`, `minzoom` and `maxzoom` are all present and well typed. Then `baseURLs` equals `tiles` in order, and the zooms are `minzoom` and `maxzoom`. Otherwise `ext` is null and `maxZoom` is 0. Whenever `tiles` is an array, `baseURLs` is exactly its leading run of strings. When every entry of `tiles` is a string and `minzoom` is an int, `minZoom` is that int, even if `maxzoom` then fails. A missing `tiles` leaves every field at its default. |
| `Maply.RemoteTileInfo.Mirror` | WhirlyGlobeSrc/Android/src/com/mousebird/maply/RemoteTileInfo.java:76-78 | The mirror for column `x` depends on `x` alone: it is `baseURLs[x % size]` for `x >= 0`, and `baseURLs[0]` for an accepted negative `x`. It requires a non-empty list and a non-negative Java remainder, as `ArrayList.get` does. |
| `Maply.RemoteTileInfo.TilePath` | WhirlyGlobeSrc/Android/src/com/mousebird/maply/RemoteTileInfo.java:74-78 | With substitution on, the path is exactly `FillTemplate` of the mirror: one left-to-right pass that writes `x`, `y` and `level` in place of `{x}`, `{y}` and `{z}` and copies every other character. No placeholder remains, and a mirror without placeholders is used as it is. Without substitution, the path is the mirror followed by the decimal texts of `level`, `x` and `y` separated by `/`, in that order. |
| `Maply.RemoteTileInfo.BuildURL` | WhirlyGlobeSrc/Android/src/com/mousebird/maply/RemoteTileInfo.java:72-83 | The URL is the tile path, followed by `"." + ext` exactly when `ext` is non-null. |
| `Maply.Substitute` | WhirlyGlobeSrc/Android/src/com/mousebird/maply/RemoteTileInfo.java:76 | The three chained `replace` calls leave no `{x}`, `{y}` or `{z}`: every occurrence is replaced, and a later replacement never brings back an earlier placeholder. A template without placeholders comes back unchanged. |
| `Maply.SubstituteFillsTemplate` | WhirlyGlobeSrc/Android/src/com/mousebird/maply/RemoteTileInfo.java:76 | For every template, the three chained `replace` calls give the same string as the one-pass reading `FillTemplate`, whatever the order and repetition of the placeholders. |
| `Maply.FillTemplateLiteral` | WhirlyGlobeSrc/Android/src/com/mousebird/maply/RemoteTileInfo.java:76 | Text without `{` passes through substitution unchanged, and the rest of the template is filled after it. |
| `Maply.SubstituteLevelColumnRow` | WhirlyGlobeSrc/Android/src/com/mousebird/maply/RemoteTileInfo.java:76 | For a template `a{z}b{x}c{y}` with no `{` in `a`, `b` or `c`, substitution gives `a + level + b + x + c + y`. |
| `Maply.SubstituteLevelRowColumn` | WhirlyGlobeSrc/Android/src/com/mousebird/maply/RemoteTileInfo.java:76 | For a template `a{z}b{y}c{x}` with no `{` in `a`, `b` or `c`, substitution gives `a + level + b + y + c + x`: each value goes where its own placeholder stood. |
| `Maply.ConcatenatedPathUnique` | WhirlyGlobeSrc/Android/src/com/mousebird/maply/RemoteTileInfo.java:78 | Without substitution, equal paths mean the same `level`, `x` and `y`. This holds for any two accepted columns, whatever mirrors serve them: the row and column are read back after the last two `/`, the column fixes the mirror, and the level is what follows it. |
| `Maply.ConcatenatedURLUnique` | WhirlyGlobeSrc/Android/src/com/mousebird/maply/RemoteTileInfo.java:78-80 | Without substitution, two tiles get equal URLs if and only if they are the same `(x, y, level)`, with or without an extension. This holds for any two accepted columns, whatever mirrors serve them. |
| `Maply.ConcatText` | WhirlyGlobeSrc/Android/src/com/mousebird/maply/RemoteTileInfo.java:90-97 | String concatenation writes a non-null string as it is and a null one as `null`. The text is `null` exactly for null and for the string `"null"`. |
| `Maply.RemoteTileInfo.BuildCacheName` | WhirlyGlobeSrc/Android/src/com/mousebird/maply/RemoteTileInfo.java:88-91 | The name is `/level_x_y.ext`: `/`, then the decimal texts of `level`, `x` and `y` joined by `_`, then `.` and the extension text. So it begins with `/` and ends with `"." + ext`, or with `.null` when `ext` is null. |
| `Maply.CacheNameUnique` | WhirlyGlobeSrc/Android/src/com/mousebird/maply/RemoteTileInfo.java:85-91 | Unique name: two tiles get equal names if and only if they are the same `(x, y, level)`, whatever the extension. |
| `Maply.RemoteTileInfo.BuildFrameCacheName` | WhirlyGlobeSrc/Android/src/com/mousebird/maply/RemoteTileInfo.java:93-98 | Frame -1 gives exactly the three-argument name. Any other frame gives `/level_x_y_frame.ext`, with the decimal texts joined by `_`. Every name starts with `/` and ends with `"." + ext`, or with `.null` when `ext` is null. |
| `Maply.FrameNameIsNotPlainName` | WhirlyGlobeSrc/Android/src/com/mousebird/maply/RemoteTileInfo.java:93-98 | The name of a real frame (not -1) never equals the name of any tile without a frame. |
| `Maply.FramedNamesUnique` | WhirlyGlobeSrc/Android/src/com/mousebird/maply/RemoteTileInfo.java:97 | Two real frames get equal names only for the same tile and frame. |
| `Maply.FrameCacheNameUnique` | WhirlyGlobeSrc/Android/src/com/mousebird/maply/RemoteTileInfo.java:85-98 | Over all tiles and frames, names are equal if and only if `(x, y, level, frame)` are equal, with -1 standing for "no frame". |
| `OrgJson.GetJSONArray` | WhirlyGlobeSrc/Android/src/com/mousebird/maply/RemoteTileInfo.java:53 | `getJSONArray` succeeds exactly when the key is present and holds an array, and then returns that array. |
| `OrgJson.GetString` | WhirlyGlobeSrc/Android/src/com/mousebird/maply/RemoteTileInfo.java:56 | `getString(ii)` succeeds exactly when `ii` is in range and the entry is a string, and then returns that string. |
| `OrgJson.GetInt` | WhirlyGlobeSrc/Android/src/com/mousebird/maply/RemoteTileInfo.java:59-60 | `getInt` succeeds exactly when the key is present and holds a number, and then returns that number. |
| `JavaText.Decimal` | WhirlyGlobeSrc/Android/src/com/mousebird/maply/RemoteTileInfo.java:76-78 | `"" + n` is non-empty and made of digits. It has a `-` in front exactly when `n` is negative, and nowhere else. It has no leading zero: it starts with `0` only for `n == 0`, and then it is just `0`. |
| `JavaText.DecimalRoundTrip` | WhirlyGlobeSrc/Android/src/com/mousebird/maply/RemoteTileInfo.java:90 | Parsing the decimal text of `n` gives back `n`. |
| `JavaText.DecimalInjective` | WhirlyGlobeSrc/Android/src/com/mousebird/maply/RemoteTileInfo.java:90 | Two ints have the same decimal text if and only if they are equal. |
| `JavaText.JavaRem` | WhirlyGlobeSrc/Android/src/com/mousebird/maply/RemoteTileInfo.java:76 | Java's `x % n` for `n > 0` lies strictly between `-n` and `n` and has the sign of `x`. `x` minus it is a multiple of `n`. For `x >= 0` it is the Euclidean remainder. For `x < 0` it is 0 or the Euclidean remainder minus `n`. |
| `JavaText.JavaRemNonNegative` | WhirlyGlobeSrc/Android/src/com/mousebird/maply/RemoteTileInfo.java:76 | `x % size` is non-negative, so `get` accepts it, exactly when `x >= 0` or `x` is a multiple of `size`. |
| `JavaText.ContainsInfix` | WhirlyGlobeSrc/Android/src/com/mousebird/maply/RemoteTileInfo.java:34 | `contains` finds `p` wherever it stands in a string. |
| `JavaText.MissingCharNotContained` | WhirlyGlobeSrc/Android/src/com/mousebird/maply/RemoteTileInfo.java:34 | `contains` fails when some character of `p` does not occur in the string. |
| `JavaText.ReplaceAllHit` | WhirlyGlobeSrc/Android/src/com/mousebird/maply/RemoteTileInfo.java:76 | `replace` writes the replacement in place of an occurrence of the target at the front and continues after it. |
| `JavaText.ReplaceAllSkipsFree` | WhirlyGlobeSrc/Android/src/com/mousebird/maply/RemoteTileInfo.java:76 | `replace` copies a prefix that does not contain the target's first character. |
| `JavaText.ReplaceAllAbsent` | WhirlyGlobeSrc/Android/src/com/mousebird/maply/RemoteTileInfo.java:76 | `s.replace(p, r)` is `s` when `p` does not occur in `s`. |
| `JavaText.ReplaceAllRemoves` | WhirlyGlobeSrc/Android/src/com/mousebird/maply/RemoteTileInfo.java:76 | No occurrence of `p` remains when the replacement is non-empty and shares no character with `p`. |
| `JavaText.ReplaceAllNoNewOccurrence` | WhirlyGlobeSrc/Android/src/com/mousebird/maply/RemoteTileInfo.java:76 | The result contains `q` only if the input did, when `q` shares no character with the non-empty replacement. |
| `JavaText.PrefixSurvivesReplace` | WhirlyGlobeSrc/Android/src/com/mousebird/maply/RemoteTileInfo.java:76 | A prefix of the result that shares no character with the replacement was already a prefix of the input. |
| `TileExamples.ConcatenationExample` | WhirlyGlobeSrc/Android/src/com/mousebird/maply/RemoteTileInfo.java:78-80 | Base `http://tiles.example.com/`, extension `png`, tile (3, 5, 2) gives `http://tiles.example.com/2/3/5.png`. |
| `TileExamples.TemplateExample` | WhirlyGlobeSrc/Android/src/com/mousebird/maply/RemoteTileInfo.java:76 | Template `http://a.example.com/{z}/{x}/{y}`, extension `jpg`, tile (1, 2, 10) gives `http://a.example.com/10/1/2.jpg`. |
| `TileExamples.LevelOnlyTemplateExample` | WhirlyGlobeSrc/Android/src/com/mousebird/maply/RemoteTileInfo.java:34-35 | A base naming only `{z}` keeps it literally: `http://tile.osm.org/{z}/3/1/2.png`. |
| `TileExamples.MirrorExample` | WhirlyGlobeSrc/Android/src/com/mousebird/maply/RemoteTileInfo.java:76-78 | With two mirrors, column 4 is served by the first and column 5 by the second. |
| `TileExamples.CacheNameExample` | WhirlyGlobeSrc/Android/src/com/mousebird/maply/RemoteTileInfo.java:88-98 | The names are `/5_3_4.png` and `/5_3_4_7.png`, and frame -1 gives the plain name. |
| `TileExamples.NullExtensionCacheNameExample` | WhirlyGlobeSrc/Android/src/com/mousebird/maply/RemoteTileInfo.java:90 | A null extension gives `/5_3_4.null`. |
| `TileExamples.TileJsonExample` | WhirlyGlobeSrc/Android/src/com/mousebird/maply/RemoteTileInfo.java:53-61 | A complete TileJSON object gives its tiles, zoom 0 to 12, extension `png`, and substitution off. |
| `TileExamples.PartialTileJsonExample` | WhirlyGlobeSrc/Android/src/com/mousebird/maply/RemoteTileInfo.java:54-58 | With strict lookups, a number in the second place of `tiles` leaves just the first URL, zooms 0, and a null extension. The org.json library may instead convert the number to text with `getString`; that conversion is not modelled (see Left out). |
| `TileExamples.MissingTilesExample` | WhirlyGlobeSrc/Android/src/com/mousebird/maply/RemoteTileInfo.java:51-66 | Without `tiles` the source stays empty, and no error reaches the caller. |
| `TileExamples.TileJsonTemplateExample` | WhirlyGlobeSrc/Android/src/com/mousebird/maply/RemoteTileInfo.java:49-67 | A TileJSON template is not substituted: `http://x/{z}/{x}/{y}3/1/2.png`. |

## Left out

- The org.json library is not part of this model. A lookup succeeds exactly when the entry exists and has the expected JSON type. Conversions the library may apply are not modelled: a number read as a string, a numeric string or a fractional number read as an int. JSON numbers are integers here.
- A null `inBase` or a null JSON object makes the Java constructors throw `NullPointerException`. Both parameters are non-null values here.
- Java `int` is 32 bits wide, but coordinates, zooms and frames are unbounded integers here. No arithmetic in the class can overflow: `x % size` cannot, and decimal rendering is exact for every int.
- `ReplaceAll` requires a non-empty target. Java's `String.replace` also accepts an empty target, but the class only replaces `{x}`, `{y}` and `{z}`.
- Fetching the URLs and storing tiles under the cache names belong to other classes and are not modelled. So is publishing the object to other threads.
- `pixelsPerSide` is only modelled at its default of 256, because nothing in the class reads it.
- `BuildURL` in Java tests `url != null` before appending the extension. The test is always true, since `replace` and string concatenation never return null, so the model has no null path.
