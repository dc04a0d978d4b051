# Photo metadata resolver — a Dafny model

This project models the per-photo metadata resolver of a photo-mapping tool, and
the small record repository that consumes its results.

The resolver, `read_photo_meta`, finds a photo's position, capture time, camera make
and model. It consults three best-effort sources in order:

1. a header-only EXIF reader (`_exifread_extract`);
2. a Google Takeout sidecar JSON file next to the photo (`_read_takeout_sidecar`);
3. a full image decode (`_pillow_extract`).

It fills gaps first-non-None-wins. The decode runs only when the header read failed
outright and a coordinate is still missing. A final filter drops the (0, 0)
"no fix" sentinel. The repository stores records and skipped paths, lists the GPS
points, and builds the GeoJSON features and CSV rows.

The readers do I/O, so their raw outputs become inputs:

- `Option<Tags>` is what `exifread.process_file` returned; None means it raised.
- A function `FilePath -> Candidate` says what each sidecar path holds: no file, an
  unreadable or undecodable file, or a decoded JSON document.
- `Option<map<string, PyVal>>` is Pillow's tag dictionary, already translated to tag
  names; None means opening or decoding raised.

Python values are the datatype `PyVal`. Truthiness, `or`, `dict.get`, `float()` on
strings, `str.split`/`strip`/`replace` and the `pathlib` suffix rule are written out
exactly. Coordinates are exact `real`s. `str()` of a non-string value is a parameter
`render`.

Modules, one per source concern:

| file | module | models |
|---|---|---|
| options.dfy | `Options` | `Option` |
| py_text.dfy | `PyText` | `str.isspace`, `strip`, `split`, `count`, `replace` |
| py_float.dfy | `PyFloat` | `float(str)` and `str(int)` |
| py_values.dfy | `PyValues` | Python values, truthiness, `or`, `get`, `float()`, `str()` |
| py_path.dfy | `PyPath` | `PurePath.suffix`, `stem`, `with_suffix` |
| types.dfy | `Types` | `PhotoMeta` (src/types_.py) |
| geo_utils.dfy | `GeoUtils` | `dms_to_decimal`, `bounds_from_points` |
| exif_header.dfy | `ExifHeader` | `_ratios_to_decimal`, `_exifread_extract` |
| sidecar.dfy | `Sidecar` | `_read_takeout_sidecar` |
| pillow_fallback.dfy | `PillowFallback` | `_pillow_extract` |
| resolver.dfy | `Resolver` | `_drop_if_zero_coord`, `read_photo_meta` |
| data_store.dfy | `DataStore` | `_safe_rel`, `PhotoRepository` |
| pipeline.dfy | `Pipeline` | the resolve-and-store loop of src/main.py |

`PhotoMeta` does not tie `lat` and `lon` together, and the model follows the code:
a record may hold one coordinate without the other. A half pair can come from the header reader (`ExifHeader.HeaderHalfPair`), the sidecar (a datetime keeps
a partial pair), the decoder (`PillowFallback.DecodedHalfPair`), or the merge, which
fills `lat` and `lon` from different sources (`Resolver.MixedSources`).

## Model

| member | source | states |
|---|---|---|
| `GeoUtils.Quotient` | src/geo_utils.py:9 | one `(n, d)` component divides exactly when it is a two-element sequence of numbers with a nonzero denominator, and the quotient times `d` is `n` |
| `GeoUtils.Quotients` | src/geo_utils.py:9 | the comprehension succeeds iff every component divides; the list then holds each component's quotient, in order |
| `GeoUtils.DmsToDecimal` | src/geo_utils.py:4-15 | a value exists iff `dms` is a sequence of at least three components that all divide; it is `d0 + d1/60 + d2/3600`, negated for "S"/"W" |
| `GeoUtils.DmsHemisphere` | src/geo_utils.py:11-13 | "S"/"W" give minus the "N" value; "N", "E", None and any other reference give the same value |
| `GeoUtils.DmsExtraComponents` | src/geo_utils.py:9-10 | components past the third never change the value, but one that does not divide makes the result None |
| `GeoUtils.DegreesRange` | src/geo_utils.py:10-13 | for a well-formed angle the magnitude stays within `[deg, deg + 1)` and the sign follows the hemisphere |
| `GeoUtils.DmsLondon` | tests/tests_geo.py:4-7 | 51°30'26" N converts to within 0.01 of 51.5072 |
| `GeoUtils.BoundsFromPoints` | src/geo_utils.py:18-23 | None iff there are no points; otherwise every point is inside the box, each side is attained by some point, and min <= max on both axes |
| `PyText.Strip` | src/exif_loader.py:66 | the result is the input without surrounding whitespace: empty iff all whitespace, non-whitespace at both ends, unchanged when both ends are non-whitespace |
| `PyText.StripIsSlice` | src/exif_loader.py:66 | the stripped text is a contiguous slice of the input, and everything cut off on either side is whitespace |
| `PyText.Split` | src/exif_loader.py:42 | one more piece than separators, no piece holds the separator, and joining the pieces gives the input back |
| `PyText.SplitOnce` | src/exif_loader.py:41-43 | a string with exactly one `/` splits into the two sides |
| `PyText.Replace` | src/data_store.py:20 | same length, each backslash becomes `/` and nothing else changes, and no backslash remains |
| `PyFloat.IntTextParses` | src/exif_loader.py:43-44 | round trip: `float(str(n)) == n` for every integer |
| `PyFloat.NatTextValue` | src/exif_loader.py:43-44 | a decimal numeral reads back as its own value |
| `PyFloat.NatTextParses` | src/exif_loader.py:43-44 | `float` accepts a decimal numeral and gives its value (the grammar's digit part and the digit value together) |
| `PyFloat.NegativeParse` | src/exif_loader.py:43-44 | `float` of a minus sign before a number text is the negation of that number |
| `PyFloat.StripNumeral` | src/exif_loader.py:43-44 | a text that starts with a sign or digit and ends with a digit reaches the number grammar unchanged by the whitespace strip |
| `PyValues.FalsyValues` | src/exif_loader.py:147-149 | a value is falsy exactly when it is `None`, `False`, zero or an empty string, sequence or dictionary |
| `PyValues.Str` | src/exif_loader.py:189-190 | `str()` of a string is that string |
| `PyValues.Or` | src/exif_loader.py:147-149 | `a or b` is truthy iff either is, and is `a` exactly when `a` is truthy |
| `PyValues.Float` | src/exif_loader.py:129-130 | `float()` gives the number of a bool or number, parses a string, and raises on anything else |
| `PyPath.Stem` | src/exif_loader.py:114-115 | the stem followed by the suffix is the name again |
| `PyPath.Suffix` | src/exif_loader.py:114 | the suffix is empty, or a dot followed by at least one character and no further dot |
| `PyPath.WithSuffix` | src/exif_loader.py:114-115 | the directory is kept and the name becomes the stem followed by the new suffix |
| `PyPath.WithOwnSuffix` | src/exif_loader.py:114 | `with_suffix(suffix + ".json")` appends ".json" to the full name |
| `PyPath.SuffixExamples` | src/exif_loader.py:114-115 | "IMG_1.JPG" splits into "IMG_1" and ".JPG"; ".hidden", "photo." and "photo" have no suffix |
| `ExifHeader.RatiosToDecimal` | src/exif_loader.py:32-52 | a value exists iff there are exactly three parts and each converts; it is `deg + min/60 + sec/3600`, negated exactly for "S"/"W" |
| `ExifHeader.WithoutSlash` | src/exif_loader.py:41-44 | a part without `/` is read by `float` alone |
| `ExifHeader.TooManySlashes` | src/exif_loader.py:41-42 | a part with two or more `/` fails to unpack and converts to None |
| `ExifHeader.PartAtSlash` | src/exif_loader.py:41-43 | a part with exactly one `/` is `float(num) / float(den)` |
| `ExifHeader.Divide` | src/exif_loader.py:43 | a zero denominator gives None |
| `ExifHeader.ZeroDenominator` | src/exif_loader.py:43 | a ratio with a zero denominator converts to None instead of raising |
| `ExifHeader.RatioTextParses` | src/exif_loader.py:38-44 | the text exifread prints for a ratio `n/d` (or `n` when `d` is 1) converts to the exact quotient |
| `ExifHeader.RatiosRoundTrip` | src/exif_loader.py:32-52 | three printed ratios convert to their exact decimal degrees, signed by the hemisphere |
| `ExifHeader.WholeRatiosRoundTrip` | src/exif_loader.py:32-52 | the same for whole-number ratios, printed without a denominator |
| `ExifHeader.TagRef` | src/exif_loader.py:66-68 | the reference is None iff the tag is absent or its text is all whitespace, otherwise the stripped text |
| `ExifHeader.TagText` | src/exif_loader.py:91-92 | make and model are None iff absent or empty, otherwise the tag's text |
| `ExifHeader.FirstTagText` | src/exif_loader.py:86-89 | the text of the first listed key present, even an empty one; None iff no key is present |
| `ExifHeader.HeaderDateTime` | src/exif_loader.py:85-89 | the original-capture tag if present, else the general datetime tag, else None |
| `ExifHeader.HeaderCoords` | src/exif_loader.py:65-83 | both coordinates are None unless both position tags are present; then each is converted on its own with its own reference |
| `ExifHeader.ExifreadExtract` | src/exif_loader.py:55-98 | None iff the tags could not be read; otherwise path, coordinates, datetime, make and model come from the tags and `extra` is empty |
| `ExifHeader.HeaderHalfPair` | src/exif_loader.py:70-83 | a readable latitude beside a longitude tag without three parts yields a half pair |
| `Sidecar.SidecarPaths` | src/exif_loader.py:113-116 | the candidates are `<name>.json` then `<stem>.json`, the same path twice when the name has no suffix |
| `Sidecar.Coerce` | src/exif_loader.py:129-130 | None passes through; any other value fails exactly when `float` refuses it |
| `Sidecar.PickLatLon` | src/exif_loader.py:125-133 | one value that `float` refuses nulls both coordinates; otherwise each is None iff its key is absent or None |
| `Sidecar.PickAt` | src/exif_loader.py:138-140 | only a dictionary value is picked from |
| `Sidecar.SearchCoords` | src/exif_loader.py:135-142 | the result is the start pair or one key's pick, and a complete result comes from a key giving a complete pair |
| `Sidecar.SearchFirstComplete` | src/exif_loader.py:137-142 | the first key giving a complete pair decides the coordinates |
| `Sidecar.SearchNoneComplete` | src/exif_loader.py:137-142 | when no key completes, the pick of the last dictionary wins (an earlier half pair can be overwritten) |
| `Sidecar.LastPickFront` | src/exif_loader.py:137-140 | the reference definition agrees with processing the first key and then the rest |
| `Sidecar.SidecarDateTime` | src/exif_loader.py:144-149 | a photoTakenTime dictionary gives `formatted` if truthy, else `timestamp`; otherwise `creationTime` if truthy, else `creationTimestamp` |
| `Sidecar.TakenTimeHidesCreation` | src/exif_loader.py:146-149 | with a photoTakenTime dictionary the creation keys are never consulted |
| `Sidecar.DocReading` | src/exif_loader.py:135-152 | a document's coordinates are its key search; its datetime is None iff the datetime value is None, and a string value is kept as it is |
| `Sidecar.Hit` | src/exif_loader.py:117-152 | missing, undecodable and non-object candidates fall through; an object is a hit iff it gives a complete pair or a datetime, and the hit is its reading |
| `Sidecar.FirstHit` | src/exif_loader.py:117-154 | the result is a hit of some candidate, or `(None, None, None)` when none hits |
| `Sidecar.FirstHitWins` | src/exif_loader.py:117-152 | the first hit is the answer, whatever comes after it |
| `Sidecar.SidecarReturnsHit` | src/exif_loader.py:151-154 | the reader returns nothing, a complete pair, or a reading with a datetime |
| `Sidecar.ReadTakeoutSidecar` | src/exif_loader.py:102-154 | the `<name>.json` hit if any, else the `<stem>.json` hit, else `(None, None, None)` |
| `Sidecar.NonObjectReadsAsMissing` | src/exif_loader.py:119-136 | a `<name>.json` holding JSON that is not an object is passed over exactly like a missing file |
| `PillowFallback.GpsData` | src/exif_loader.py:168-173 | a falsy GPSInfo gives an empty dictionary; a truthy non-dictionary raises; a dictionary is used as it is |
| `PillowFallback.DecodedCoords` | src/exif_loader.py:175-182 | no coordinates from an empty GPS dictionary; otherwise each goes through `dms_to_decimal` on its own, and a missing tag gives None |
| `PillowFallback.DecodedDateTime` | src/exif_loader.py:184-188 | a truthy DateTimeOriginal, else a truthy DateTime, else None |
| `PillowFallback.TruthyText` | src/exif_loader.py:189-190 | make and model are present iff their tag is truthy |
| `PillowFallback.Altitude` | src/exif_loader.py:192-198 | `extra` holds only "altitude_m", and holds it iff GPSAltitude is present and unpacks into a pair that divides; the value is the quotient's text |
| `PillowFallback.PillowExtract` | src/exif_loader.py:158-212 | None iff decoding failed or GPSInfo is a truthy non-dictionary; otherwise each field comes from its own tags |
| `PillowFallback.NoGpsInfo` | src/exif_loader.py:168-198 | an image without GPSInfo yields a record with no coordinates and empty `extra` |
| `PillowFallback.GpsInfoOffsetLosesRecord` | src/exif_loader.py:170-173 | a numeric GPSInfo value loses the whole record |
| `PillowFallback.AltitudeExamples` | src/exif_loader.py:193-198 | (123, 2) records 61.5; a single number or a zero denominator leaves `extra` empty |
| `PillowFallback.DecodedHalfPair` | src/exif_loader.py:176-182 | a latitude without a longitude gives a half pair |
| `Resolver.DropIfZeroCoord` | src/exif_loader.py:215-226 | the pair is kept or becomes (None, None); it changes iff both are present and within 1e-9 of zero; the result is never the sentinel |
| `Resolver.DropIdempotent` | src/exif_loader.py:215-226 | filtering twice is filtering once |
| `Resolver.SentinelExamples` | src/exif_loader.py:222-226 | (0, 0) and (1e-10, -1e-10) are dropped; (0, 5) and half pairs are unchanged |
| `Resolver.HeaderStage` | src/exif_loader.py:237-243 | a failed header read leaves every field None; a successful one gives its fields; `extra` starts empty |
| `Resolver.SidecarStage` | src/exif_loader.py:246-252 | the sidecar fills lat, lon and datetime each only where it is None, and never touches the others |
| `Resolver.DecodeStage` | src/exif_loader.py:257-268 | the decoded record fills only None fields, leaves every present field as it was, and its `extra` becomes the `extra` |
| `Resolver.Merged` | src/exif_loader.py:237-268 | after a successful header read each of lat, lon and datetime is the header's value, else the sidecar's, with the header's make and model and no `extra`; after a failed one the sidecar's values stand alone when its pair is complete or decoding fails, and otherwise the decoded record fills each remaining gap and supplies make, model and `extra` |
| `Resolver.ReadPhotoMeta` | src/exif_loader.py:229-274 | the path is kept; the result is never the sentinel; a successful header read fixes make and model and leaves `extra` empty; a header datetime survives; each header coordinate survives unless the filter empties both; a nonempty `extra` means the header failed, the sidecar pair was incomplete and the decode succeeded |
| `Resolver.HeaderCompleteIgnoresOthers` | src/exif_loader.py:237-268 | a header read with both coordinates and a datetime makes the sidecar and the decoder irrelevant |
| `Resolver.DecodeOnlyOnHeaderFailure` | src/exif_loader.py:255 | once the header read succeeds the decoded image never matters, even with no GPS |
| `Resolver.SidecarPairSkipsDecode` | src/exif_loader.py:255 | a complete sidecar pair also keeps the decoder away |
| `Resolver.DecodeFillsGaps` | src/exif_loader.py:255-268 | after a failed header read and an incomplete sidecar pair, the decoded record fills the gaps and supplies make, model and `extra` |
| `Resolver.MalformedSidecarIgnored` | src/exif_loader.py:120-123 | an undecodable sidecar file gives the same record as no file |
| `Resolver.MixedSources` | src/exif_loader.py:247-250 | lat can come from the header and lon from the sidecar |
| `Resolver.NothingReadable` | src/exif_loader.py:229-274 | with nothing readable the record holds only the path |
| `DataStore.SafeRel` | src/data_store.py:13-22 | None iff the relative path could not be computed; otherwise the same path with every backslash a slash, and no backslash left |
| `DataStore.SafeRelIdempotent` | src/data_store.py:20 | normalising twice is normalising once; a path without backslashes is kept |
| `DataStore.Points` | src/data_store.py:41-46 | every point is the pair of some record with both coordinates |
| `DataStore.PointsOfOne` | src/data_store.py:41-46 | one record gives its pair when it has both coordinates, nothing otherwise |
| `DataStore.PointsAppend` | src/data_store.py:41-46 | the filter distributes over concatenation, so insertion order is kept |
| `DataStore.PointsComplete` | src/data_store.py:41-46 | every record with both coordinates contributes its pair |
| `DataStore.Thumb` | src/data_store.py:61 | "thumb" is None when no thumbs map is given or the path is not in it, otherwise the mapped name |
| `DataStore.PropertyValues` | src/data_store.py:64-72 | the keys are the fixed ones plus `extra`'s; "thumb" and "img_rel" are always the thumbnail and relative path; every other `extra` entry is its own value and overrides path, datetime, make and model, which otherwise hold the file name and the record's values |
| `DataStore.FeatureOf` | src/data_store.py:74-78 | geometry coordinates are `[lon, lat]`; the properties use the thumbnail and the normalised relative path |
| `DataStore.Features` | src/data_store.py:56-79 | one feature per point, in insertion order, with coordinates `[lon, lat]` of that point |
| `DataStore.RowCells` | src/data_store.py:90-99 | the columns are the fixed ones plus `extra`'s; every `extra` entry is its text and overrides a fixed column; otherwise path is the path's text, lat and lon are numbers, datetime, make and model are texts, and an absent value is blank |
| `DataStore.Rows` | src/data_store.py:88-100 | one row per stored record, in order, with or without coordinates |
| `DataStore.PhotoRepository.Add` | src/data_store.py:32-33 | the record is appended and the skipped list is unchanged |
| `DataStore.PhotoRepository.Skip` | src/data_store.py:35-36 | the path is appended and the records are unchanged |
| `DataStore.PhotoRepository.Items` | src/data_store.py:38-39 | every record, in insertion order |
| `DataStore.PhotoRepository.GpsPoints` | src/data_store.py:41-46 | the loop computes the point filter, and every record with both coordinates is in it |
| `DataStore.PhotoRepository.GeoJsonFeatures` | src/data_store.py:53-79 | the loop computes one feature per point |
| `DataStore.PhotoRepository.CsvRows` | src/data_store.py:87-100 | the loop computes one row per record |
| `Pipeline.SkippedPaths` | src/main.py:136-148 | skipped paths and points together account for every record once; each skipped path is a record without both coordinates |
| `Pipeline.PositionHeader` | src/exif_loader.py:65-83 | header tags with whole-number positions give those exact decimal degrees |
| `Pipeline.HeaderPhoto` | src/exif_loader.py:237-243 | a photo whose header holds whole-number positions (latitude at least one degree) resolves to a record with both coordinates |
| `Pipeline.SidecarPhoto` | src/exif_loader.py:135-142 | a header failure with a `geoData` sidecar gives the sidecar position |
| `Pipeline.Classify` | src/main.py:138-148 | two records with coordinates and one without give two points, one skipped path and three rows |
| `Pipeline.ThreePhotos` | src/main.py:136-148 | header GPS, sidecar-only GPS and an unreadable photo give two points, one skipped path and three stored rows |

## Left out

- File and format I/O: `exifread.process_file`, `Image.open` and `getexif`, `json.loads`, `Path.exists` and `read_text`, and every file write. Their results are inputs.
- Tag-id translation through Pillow's `TAGS` and `GPSTAGS` tables: the decoded dictionary is keyed by names already. Non-string dictionary keys and `bytes` values are not modelled.
- The module-level HEIC plugin registration and warning filter: they are interpreter side effects.
- Floating point: coordinates and quotients are exact reals, so rounding and float noise are not modelled. The 1e-9 tolerance is modelled exactly.
- `PyFloat.ParseFloat`: `inf`, `nan` and non-ASCII digits are rejected, although Python accepts them. They have no real value.
- `PyValues.Str`: only strings, None and bools are rendered exactly. The text of numbers and containers, such as the altitude string, is the parameter `render`.
- `os.path.relpath` is a foreign call: its result is an input to `DataStore.SafeRel`.
- pandas `DataFrame.to_csv` and `json.dumps` are foreign calls. So are column union, key order and the JSON text.
- `exifread` tags are modelled by their text and their values' texts. The `hasattr(values)` fallback to iterating the tag is not modelled, since exifread tags always carry `values`.
- `DataStore.Features`: its contract fixes the count and coordinates of the features. It states their properties only through `DataStore.FeatureOf`.
- `write_reports`, the skipped-list text, thumbnail generation, map building, configuration and the CLI are outside the core. The resolve-and-store loop of src/main.py is modelled only as `Pipeline.SkippedPaths`.
- `Pipeline.ThreePhotos` fixes the header photo to whole-number positions with at least one degree of latitude. It fixes the sidecar photo to one particular `geoData` document.
- `PathText`: `str(path)` is modelled as the directory prefix followed by the name. Separator handling is not modelled.

