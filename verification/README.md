# KMZ adapter of mapin-ol, modelled in Dafny

mapin-ol is a browser map on OpenLayers that renders dropped GPX, GeoJSON,
IGC, KML, KMZ and TopoJSON files. The only logic it owns is the KMZ adapter
in `main.js`, and this project models that adapter:

- the module-level `zip` slot, which starts `undefined`;
- `getKMLData(buffer)`: unzip the buffer, store the archive in `zip`, pick
  the first archive key matching `/\.kml$/i`, and return that entry decoded
  as text, or `null`;
- `getKMLImage(href)`: cut `href` at one past the last `/` of the *page*
  URL, and return an object URL over the archive entry of that name, or
  `href` unchanged;
- the `KMZ` format class: `getType()` asks for an array buffer, and
  `readFeature`/`readFeatures` run `getKMLData` and hand the result to the
  inherited KML reader, whose icon hrefs go through `getKMLImage`.

Layout:

- `wrappers.dfy`: `Option` (a value that may be `null`/`undefined`) and
  `Result` (a call that returns or throws).
- `js_string.dfy`: the ECMAScript built-ins involved: `lastIndexOf`, `slice`
  with its clamping, `/…$/i` end-anchored case-insensitive matching,
  `Array.prototype.find`, and the key coercion of the `in` operator.
- `archive.dfy`: the unzipped archive as a sequence of `(name, bytes)`
  entries with unique names, in `Object.keys` order; own-entry lookup, and
  `in` including the names inherited from `Object.prototype`.
- `kmz_adapter.dfy`: the slot, `getKMLData`, `getKMLImage`.
- `kmz_properties.dfy`: lemmas relating several calls and particular inputs.
- `kmz_format.dfy`: the `KMZ` class as "decode, then delegate".

Foreign calls are parameters: `unzipSync` is a function `Bytes ->
Result<Archive, Error>` (a failure is the exception it throws),
`TextDecoder.decode` is a function `Bytes -> string`, the inherited KML
reader is a function of the text, the read options and the icon resolver,
and an object URL is represented by the blob content it was made from.
`window.location.href` is an explicit `pageUrl` argument.

Three behaviours of the code differ from what a reader might expect, and the
model follows the code:

- One might expect an image reference to be looked up by its last path
  segment. The code instead cuts `href` at the position of the last `/` in the *page* URL.
  The model keeps that (`ImageKey`). `KmzProperties.HrefLastSegmentNotUsed`
  shows a reference that the last-segment reading would resolve and the code
  does not. `KmzProperties.PageRelativeHrefRoundTrip` shows what the cut
  does recover: an archive path that was appended to the page's directory.
- One might expect a missing `.kml` entry always to yield nothing. In the code,
  `find` returns `undefined`, and `kml in zip` then tests the key
  "undefined". So an entry literally named `undefined` is decoded and
  returned (`KmzProperties.UndefinedEntryQuirk`).
- One might expect image resolution never to raise. In the code, `image in zip`
  throws a `TypeError` while `zip` is still `undefined`, that is, before
  the first successful unzip, whenever the page URL contains a `/`.
  `GetKMLImage` models that as `Failure(TypeError)`.

## Model

| member | source | states |
|---|---|---|
| JsString.LastIndexOf | main.js:174 | the result is -1 exactly when the page URL has no '/', and otherwise a position holding '/' with no '/' after it |
| JsString.Slice | main.js:178 | `slice(start)` yields a suffix of the string; for 0 <= start <= length it is length - start long; a start past the end yields "" rather than failing |
| JsString.Canonicalize | main.js:166 | `/i` folds exactly the ASCII lower-case letters onto upper case; only ASCII letters fold onto ASCII upper case |
| JsString.EndAnchoredIsSuffix | main.js:166 | an end-anchored case-insensitive literal pattern matches a string iff the string's last characters equal the literal up to case |
| JsString.Find | main.js:166 | `find` returns `undefined` iff no element satisfies the test, and otherwise an element that satisfies it with no earlier element satisfying it |
| JsString.FindPrefix | main.js:166 | once a prefix contains a match, appending elements never changes what `find` returns |
| JsString.PropertyKey | main.js:166-167 | the `in` operator tests a found key as itself and `undefined` as the key "undefined" |
| Archive.Keys | main.js:166 | `Object.keys(zip)` lists the entry names, one per entry, in archive order |
| Archive.Lookup | main.js:170 | `zip[name]` is absent iff no entry has that name, and otherwise is the bytes of the entry with that name |
| Archive.JsIn | main.js:179 | `name in zip` holds iff some entry has that name or the name is one of the twelve properties every plain object inherits from `Object.prototype` |
| KmzAdapter.KmlNameCharacterization | main.js:166 | a key matches `/\.kml$/i` iff it has at least 4 characters and ends in '.', k or K, m or M, l or L |
| KmzAdapter.SelectKml | main.js:166-170 | `null` iff no key is a KML name and there is no entry named "undefined"; when some key is a KML name, the bytes of the first such entry in key order |
| KmzAdapter.NoKmlNameSelectsUndefined | main.js:166-170 | when no key is a KML name, the selection is whatever the archive holds under the key "undefined" |
| KmzAdapter.GetKMLData | main.js:162-171 | when unzip throws, the exception escapes and the slot is unchanged; otherwise the slot holds the new archive, even when the result is `null`, and the result is the decoded selected entry or `null` |
| KmzAdapter.ImageKey | main.js:174-178 | there is no lookup key iff the page URL has no '/'; a key is always a suffix of the href (positions counted in code points, see Left out) |
| KmzAdapter.GetKMLImage | main.js:173-183 | throws a TypeError iff the page URL has a '/' and no archive has been unzipped; with no '/' the href passes through; a pass-through is the href unchanged; an object URL carries exactly the bytes of an archive entry whose name ends the href |
| KmzAdapter.GetKMLImageAsWritten | main.js:173-183 | the `in` test of main.js: throws a TypeError exactly when `GetKMLImage` does; with no '/' the href passes through unchanged; an entry blob carries the bytes of an entry whose name ends the href; any other blob is made from an `Object.prototype` member whose name ends the href |
| KmzProperties.KmlNameExamples | main.js:166 | `doc.kml`, `DOC.KML` and `x.Kml` match; `a.kml.png`, `kml` and `undefined` do not |
| KmzProperties.LaterEntriesIgnored | main.js:166-170 | appending entries after an archive that already has a KML entry does not change the selected entry |
| KmzProperties.SingleKmlEntry | main.js:166-170 | the only KML-named entry is selected, whatever other entries exist |
| KmzProperties.UndefinedEntryQuirk | main.js:166-170 | an entry named "undefined" is returned when no key matches; with neither, the result is `null` |
| KmzProperties.DocKmlAlone | main.js:164-171 | an archive holding only `doc.kml` decodes to that entry's text |
| KmzProperties.GetKMLDataIgnoresPriorState | main.js:164-171 | the result depends on the buffer alone; a successful unzip leaves the same slot whatever was there before |
| KmzProperties.GetKMLDataTwice | main.js:164-171 | decoding the same buffer twice gives the same slot and the same result as decoding it once |
| KmzProperties.ImageAfterDecode | main.js:165-179 | after a successful `getKMLData` the slot holds that archive and an icon lookup cannot throw, neither as written nor in the own-entry reading |
| KmzProperties.ImageKeyFromPageCut | main.js:174-178 | the key is the href from one past the page URL's last '/', or "" when the href is shorter |
| KmzProperties.GetKMLImageResolution | main.js:173-183 | an entry named exactly like the cut key is returned as an object URL over its bytes; with no such entry the href passes through |
| KmzProperties.PageRelativeHrefRoundTrip | main.js:174-182 | an href made of the page URL up to its last '/' plus an archive path resolves to exactly that path's entry, and passes through when there is none |
| KmzProperties.HrefLastSegmentNotUsed | main.js:174-181 | at page "http://h/", "../assets/icon.png" is looked up as "/icon.png" and passes through despite an "icon.png" entry |
| KmzProperties.InheritedNameResolvesAsWritten | main.js:179-182 | for every inherited name without an own entry ("toString", "constructor", …), main.js turns an href whose key is that name into an object URL over the inherited member; the own-entry reading passes it through |
| KmzProperties.OwnEntryShadowsInheritedName | main.js:179-182 | an entry named like an inherited member shadows it: both readings return an object URL over the entry's bytes |
| KmzProperties.AsWrittenAgreesOffInheritedNames | main.js:179-182 | when the key is not an inherited name, the `in` test and the own-entry test give the same result |
| KmzFormat.GetType | main.js:194-196 | the format always declares an array buffer as its input, never text |
| KmzFormat.ReadFeature | main.js:198-201 | the slot ends as `getKMLData` leaves it; its exception escapes unchanged; otherwise the reader gets exactly the value `getKMLData` returned (text or `null`) and a resolver over a non-empty slot |
| KmzFormat.ReadFeatures | main.js:203-206 | the same as `ReadFeature`, with the multi-feature reader |
| KmzFormat.ResolverNeverThrows | main.js:188-192 | during the read, the slot holds the freshly unzipped archive, and the `getKMLImage` installed as the icon function never throws, both as written (with the `in` test) and in the own-entry reading |
| KmzFormat.ReadersSeeSameInput | main.js:198-206 | `readFeature` and `readFeatures` of one buffer pass their readers the same text and leave the same slot |

## Findings

| source | as written | input that shows it | evidently intended | confidence | as-written member | corrected member |
|---|---|---|---|---|---|---|
| main.js:179-182 | `image in zip` is also true for the names a plain object inherits from `Object.prototype` (`toString`, `constructor`, `valueOf`, …), and then `new Blob([zip[image]])` wraps that inherited member | page URL `http://h/`, href `http://h/toString`, archive without a `toString` entry: an object URL over the text of `Object.prototype.toString` comes back instead of the href | only archive entries resolve (an own-property test); every other key passes the href through | not executed; high | KmzAdapter.GetKMLImageAsWritten, KmzProperties.InheritedNameResolvesAsWritten | KmzAdapter.GetKMLImage |

`getKMLData` is not affected: its key is either an own key or "undefined",
and "undefined" is not an inherited name. The `KMZ` format's icon resolver
offers both readings: `ResolveAsWritten` is the function main.js installs,
and `Resolve` is the corrected own-entry one.

## Left out

- `unzipSync` (ZIP decompression): a parameter. Its exception is an `UnzipError` whose content is not modelled.
- `TextDecoder` (UTF-8 decoding): a parameter.
- `Blob` and `URL.createObjectURL`: an object URL is represented by the blob content. Object URLs are never revoked, so they leak; that resource concern is outside a value model.
- The OpenLayers KML reader (`super.readFeature(s)`): a parameter. It receives the text or `null`, the read options and the icon resolver. The model does not say which hrefs the reader passes to the resolver or in what form.
- The `KMZ` constructor's option handling (`opt_options || {}`, then overwriting any caller-supplied `iconUrlFunction`): only its effect on reading is modelled, namely that icons resolve through `getKMLImage`.
- JsString.Canonicalize: folds only ASCII letters. ECMAScript also folds non-ASCII letters among themselves, but never onto ASCII, so the `.kml` test is unaffected.
- KmzAdapter.ImageKey: positions count Unicode code points, as a Dafny `char` is one, while `lastIndexOf` and `slice` in main.js count UTF-16 code units. The index is computed on the page URL and applied to the href. So when either string has a character outside the Basic Multilingual Plane before the cut, the model takes a different key than main.js. Example: page `http://h/`, href `ab\u{1F600}defgh/icon.png`. main.js looks up `/icon.png`; the model looks up `icon.png`. `GetKMLImage`, `GetKMLImageAsWritten` and the lemmas about the cut inherit this. Comparing whole names or finding a character within one string does not depend on the unit.
- Archive order: the archive is taken in `Object.keys` order, which lists integer-like names first. Two ZIP entries with the same name leave one key. An entry named `__proto__` would set the object's prototype instead of adding a key. Both happen inside `unzipSync`'s result, which is a parameter here.
- The draw controls, map, scale line, Modify, Snap and DragAndDrop wiring (main.js:38-160, 209-261): UI configuration of the library with no logic of its own.
- The extent computation (main.js:33-36): floating-point arithmetic whose result is never used.
- Re-entrant drops: each call runs to completion. A second drop during a read is not modelled.
