# desmasks in Dafny

A model of `desmasks`, the package that builds the bad-region masks of DES
coadd tiles. It covers the following, with the properties each promises proved:

- **Mask file names** (`files.py`). A full tile name such as `SN-C3_C10_r3688p01`
  loses its `_r<reqnum>p<attnum>` processing tag. The mask and bounds file names
  are built from what remains.
- **Catalog selection and geometry** (`loadmasks.py`):
  - Star and bleed-trail rows off the unused CCDs 31 and 2, and without the
    `skipmask` bits.
  - Band selection and trimming of the image data to the region common to all CCDs.
  - The tile border trim.
  - Conversion of rows into circles and four-vertex polygons, each carrying its
    row's bit value. u and Y band edge bleeds are skipped when `bands` is
    given; without `bands`, a table with `band` and `badpix` columns makes the
    source fail (see "## Findings").
- **ds9 region files** (`loadreg.py`). Each circle line becomes a star circle
  (value 32) and each polygon line a bleed-trail polygon (value 64). The
  circles come first, then the polygons, each in file order.
- **The tile mask** (`masks.py`). A position is masked when it lies in a bad
  region or outside the tile bounds.
- **The object-id mask** (`objmasks.py`). It holds the ids in the second column
  of a file of integer pairs. A query answers membership, or flags of 0 or 64.
- **Colours** (`plotting.py`):
  - The `#rrggbb` encoding, with its decoder.
  - The table from mask values 32, 64, …, 480 to the rainbow colours.

Modules:

| module | contents |
|---|---|
| `Errors` | `Option` and `Result`, plus one `Error` constructor for each way the Python code fails: a raise site, an unbound local, an empty reduction, a bad index or a bad number. |
| `Text` | The Python string operations the package uses: `strip`, `rstrip`, `find`, slicing with negative bounds, `split` and `join` on one character. |
| `Seqs` | numpy row selection `data[np.where(cond)]` as `Filter`, and the `np.where` indices as `KeptIndices`. |
| `Geometry` | The circle and polygon primitives handed to healsparse. |
| `Files`, `LoadMasks`, `LoadReg`, `Masks`, `ObjMasks`, `Plotting` | One module per source file. |

Modelling conventions:

- Python exceptions become `Err` results.
- Default arguments become explicit parameters. The caller passes the Python default where it wants it: `trim=True` and `bands=None` for `read_imgdata`, `trim_pixels=100` for `get_trimmed_tile_geom`, `expand=1.0` and `bands=None` for `load_circles`, and `bands=None` for `load_polygons`.
- Catalog tables are a set of column names plus a sequence of rows.
- Coordinates are mathematical reals.
- `badpix` and `skipmask` are 32-bit vectors, so `&` is bitwise.
- The model does not read files:
  - Region files and object-id files are given as their lines or integers.
  - The conversion of a region token to a number is the parameter `parse`.
  - A healsparse map is a lookup from a position to the value there.
  - The mask directory, which the package reads from `MEDS_DIR`, is a parameter.

The methods mirror the source's loops:

- `LoadCircles`, `LoadPolygons` and `LoadRegions` append to lists. The loop of `LoadPolygons` is its own method, `LoadPolygonRows`.
- `ReadImgdata` accumulates the band test.
- `GetTrimmedTileGeom` updates a copy of the rows in place.
- `PairVertices` fills zeroed arrays.
- `ObjMask.IsMasked` and `ObjMask.GetMaskFlags` set slots of zero-filled arrays.
- `GetColors` fills a map.

Each method is proved against a specification function or predicate, and lemmas
state that specification's properties.

## Model

| member | source | states |
|---|---|---|
| `Text.Strip` | desmasks/loadreg.py:34 | The result is the line without its leading and trailing whitespace, using Python's `isspace` set: it starts and ends with a non-space and only whitespace was removed. |
| `Text.RStrip` | desmasks/loadmasks.py:100 | `rstrip` removes exactly the trailing whitespace: the result is a prefix of the string, it does not end in whitespace, and everything removed was whitespace. |
| `Text.Find` | desmasks/loadreg.py:84-85 | `find` gives the first index of the character, or -1 exactly when the character is absent. |
| `Text.Split` | desmasks/files.py:9 | `split` gives at least one piece, and no piece holds the separator. |
| `Text.Slice` | desmasks/loadreg.py:87 | Python slicing `s[a:b]`: bounds inside the string select exactly `s[a..b]`, and a negative stop counts back from the end, so `s[a:-1]` drops the last character. |
| `Text.Join` | desmasks/files.py:9 | `'_'.join` of no pieces is empty, and a join always starts with its first piece. |
| `Text.JoinSplit` | desmasks/files.py:9 | Joining the pieces of a split gives back the original string. |
| `Text.SplitJoin` | desmasks/files.py:9 | Splitting a join of separator-free pieces gives back the pieces. |
| `Seqs.Filter` | desmasks/loadmasks.py:24-29 | `data[np.where(cond)]` keeps only rows that satisfy the condition and come from the data, and it keeps every row of the data that satisfies it. |
| `Seqs.KeptIndices` | desmasks/loadmasks.py:24-29 | The `np.where` indices are positions of rows that satisfy the condition. They are strictly increasing and include every such position. |
| `Seqs.Select` | desmasks/loadmasks.py:107-111 | Indexing by a boolean mask keeps only rows of the data, and keeps every row the mask marks. |
| `Seqs.FilterMembership` | desmasks/loadmasks.py:24-29 | A row survives `data[np.where(cond)]` exactly when it is in the data and satisfies the condition. |
| `Seqs.FilterAppend` | desmasks/loadmasks.py:24-29 | Selection distributes over concatenation, so row order is kept. |
| `Seqs.KeptIndicesFilter` | desmasks/loadmasks.py:24-29 | Taking the rows at the `np.where` indices is the same as selecting by the condition. |
| `Seqs.SelectIsFilter` | desmasks/loadmasks.py:107-111 | Indexing by a boolean mask that records a condition is selecting by that condition. |
| `Files.MaskTilename` | desmasks/files.py:4-13 | A name without `_r` is unchanged. A name with `_r` becomes its first two `_`-separated fields joined by `_`. |
| `Files.HasProcessingTag` | desmasks/files.py:8 | `'_r' in name` holds exactly when the name is some text, then `_r`, then some text. |
| `Files.TagMeansTwoFields` | desmasks/files.py:8-9 | A name containing `_r` splits into at least two fields. |
| `Files.MaskTilenameIsTwoFieldPrefix` | desmasks/files.py:8-9 | With a tag, the mask tile name is a prefix of the full name and holds exactly one `_`. |
| `Files.MaskTilenameIdempotent` | desmasks/files.py:4-13 | Removing the tag a second time changes nothing. |
| `Files.DocumentedExample` | desmasks/files.py:34-36 | `SN-C3_C10_r3688p01` has mask tile name `SN-C3_C10`, as the docstring says. |
| `Files.DocumentedBasicName` | desmasks/files.py:35 | The basic name `SN-C3_C10` is its own mask tile name. |
| `Files.PathJoin` | desmasks/files.py:43 | The result of `os.path.join` for two components: an absolute name wins, an empty directory or one ending in `/` is concatenated directly, and otherwise a `/` is inserted. |
| `Files.MaskFile` | desmasks/files.py:28-43 | The mask file name ends with the mask tile name plus `-griz-healsparse.fits`. For a plain directory and a relative tile name it is exactly `dir/<mask tile>-griz-healsparse.fits`. |
| `Files.BoundsFile` | desmasks/files.py:46-61 | The same as `MaskFile`, with the suffix `-griz-bounds-healsparse.fits`. |
| `Files.FullAndBasicNameSameFiles` | desmasks/files.py:33-43 | The full and the basic tile name give the same mask file and the same bounds file. |
| `Files.BoundsFileDiffersFromMaskFile` | desmasks/files.py:43-61 | A tile's bounds file is never its mask file. |
| `LoadMasks.ReadStars` | desmasks/loadmasks.py:24-30 | A row is kept exactly when it is in the data and its `ccdnum` is neither 31 nor 2. Rows stay in order and columns are unchanged. |
| `LoadMasks.ReadBleeds` | desmasks/loadmasks.py:50-59 | A row is kept exactly when its `ccdnum` is neither 31 nor 2 and `badpix & skipmask == 0`. Rows stay in order. |
| `LoadMasks.BleedsWithoutSkipmaskAreStars` | desmasks/loadmasks.py:50-56 | With the default `skipmask=0`, bleed selection is star selection. |
| `LoadMasks.ReadBleedsKeepsOrder` | desmasks/loadmasks.py:50-58 | Selecting from two halves of a table gives the selection from the whole, in order. |
| `LoadMasks.ImgSelection` | desmasks/loadmasks.py:99-111 | Without `bands` every row is kept. With `bands`, a row is kept exactly when its right-stripped band is listed. |
| `LoadMasks.MaxOf` | desmasks/loadmasks.py:114 | The column maximum bounds every value and is one of them. |
| `LoadMasks.MinOf` | desmasks/loadmasks.py:115 | The column minimum is below every value and is one of them. |
| `LoadMasks.MaxOfBoth` | desmasks/loadmasks.py:114-117 | `max` of two column maxima is the greatest value of both columns. |
| `LoadMasks.MinOfBoth` | desmasks/loadmasks.py:115-118 | `min` of two column minima is the least value of both columns. |
| `LoadMasks.ReadImgdata` | desmasks/loadmasks.py:99-131 | Error cases: an empty `bands` list fails because `logic` is unbound, no matching row gives `NoneMatchedBands`, and trimming an empty table fails. It succeeds exactly otherwise. Without trim the result is the band selection. With trim it is one row: the first selected row with its corners on the box common to all selected rows. |
| `LoadMasks.GetTrimmedTileGeom` | desmasks/loadmasks.py:144-159 | The result is a fresh copy and the input is unchanged. `rac1`, `rac4`, `decc3` and `decc4` move down by `trim_pixels*0.263/3600` and the other four corners move up by it. Every other field is untouched. |
| `LoadMasks.TrimOffset` | desmasks/loadmasks.py:146-147 | The offset has the sign of `trim_pixels` and is `trim_pixels * 0.263 / 3600` degrees. |
| `LoadMasks.ExtractValues` | desmasks/loadmasks.py:290-299 | A scalar becomes `n` copies and a list of length `n` is returned as is. Any other length is a `ValuesLength` error. |
| `LoadMasks.ExtractVert` | desmasks/loadmasks.py:259-287 | Four vertices, from `ra_1..ra_4`/`dec_1..dec_4` when the table has `ra_1` and from `rac1..rac4`/`decc1..decc4` otherwise. |
| `LoadMasks.LoadCircles` | desmasks/loadmasks.py:174-201 | `bands` without a `band` column is an error, checked before the values. Otherwise it succeeds exactly when the values fit. The result has one circle per kept row, in order. Each circle has the row's centre, `radius/3600*expand` and its own row's value. Without `bands` there is one circle per row. |
| `LoadMasks.LoadPolygons` | desmasks/loadmasks.py:220-256 | The values are checked first, then `bands` against the `band` column. Without `bands`, a non-empty table with `band` and `badpix` columns fails on the unbound `band`. Otherwise the result has one polygon per kept row, in order, each with its row's four vertices and value. u and Y edge bleeds (`badpix == 128`) are skipped. |
| `LoadMasks.LoadPolygonRows` | desmasks/loadmasks.py:229-256 | The row loop fails, on the unbound `band`, exactly when `bands` is not given, the table has `band` and `badpix` columns and at least one row. Otherwise it yields the polygons of the kept rows, in order. |
| `LoadMasks.LoadPolygonsReadingBand` | desmasks/loadmasks.py:204-256 | The corrected loader reads each row's band whenever the table has one. It fails only on bad values or `bands` without a `band` column, and otherwise gives the polygons of the kept rows. |
| `LoadMasks.PolygonsOfRowsUnique` | desmasks/loadmasks.py:229-256 | The polygons of a table are determined by its rows, values and bands. So wherever `load_polygons` succeeds, the corrected loader gives the same polygons. |
| `LoadMasks.OnePolygonPerRow` | desmasks/loadmasks.py:229-256 | Without `bands` and with no edge bleed to skip, polygon k is exactly row k's four vertices (as `_extract_vert` reads them) with row k's value `vals[k]`, so there is one polygon per row, in row order. |
| `LoadMasks.EdgeBleedNeverLoaded` | desmasks/loadmasks.py:239-245 | A u or Y row whose `badpix` is exactly 128 is never among the rows kept for loading, whatever `bands` is. |
| `LoadReg.PayloadBetweenParens` | desmasks/loadreg.py:84-87 | The numeric text of a line is exactly what lies between its first `(` and its first `)`. |
| `LoadReg.PayloadWithoutCloseParen` | desmasks/loadreg.py:84-87 | Without a `)`, `find` answers -1 and the payload loses the line's last character. |
| `LoadReg.Payload` | desmasks/loadreg.py:84-87 | The payload never contains `)`. When a `(` comes before the first `)`, the line is the text before the first `(`, then `(`, the payload, `)` and the rest. |
| `LoadReg.LineNumbers` | desmasks/loadreg.py:87-88 | The numbers of a line exist exactly when every `,`-separated token of its payload parses. Then there is one number per token, in token order. |
| `LoadReg.ParseNumbers` | desmasks/loadreg.py:88 | It succeeds exactly when every token parses, giving the numbers in token order. Otherwise it is the error of a token that does not parse. |
| `LoadReg.ExtractCircle` | desmasks/loadreg.py:102-112 | Extraction succeeds exactly when every number of the line parses and there are at least three. A bad number is passed on, and fewer than three numbers is an index error at the first missing index. Otherwise the circle has the first three numbers as centre and radius and the value `STAR` (32). |
| `LoadReg.Pairs` | desmasks/loadreg.py:124-134 | There are `len//2` vertices: RA from the even positions and Dec from the odd ones. |
| `LoadReg.PairsThenInterleave` | desmasks/loadreg.py:124-134 | Interleaving the vertices gives back the number list up to its last complete pair. |
| `LoadReg.InterleaveThenPairs` | desmasks/loadreg.py:124-134 | Pairing an interleaved list gives back its vertices. |
| `LoadReg.PairVertices` | desmasks/loadreg.py:124-134 | Filling the two zeroed arrays in the loop gives exactly `Pairs` of the numbers. |
| `LoadReg.PolygonOfLine` | desmasks/loadreg.py:148-150 | It succeeds exactly when the numbers parse. The polygon has the paired vertices and the value `TRAIL` (64). |
| `LoadReg.ExtractPolygon` | desmasks/loadreg.py:119-140 | The polygon built in the loop is `PolygonOfLine`. |
| `LoadReg.LoadRegions` | desmasks/loadreg.py:28-50 | It succeeds exactly when every stripped circle line and every polygon line extracts. The result is all circles in file order, then all polygons in file order. |
| `LoadReg.Shapes` | desmasks/loadreg.py:50 | `circles + polygons`: all the circles in order, then all the polygons in order. |
| `LoadReg.FailedLine` | desmasks/loadreg.py:36-39 | One circle or polygon line that cannot be extracted makes the whole file fail. |
| `LoadReg.RegionValues` | desmasks/loadreg.py:143-150 | Loaded circles carry the star value 32 and come first. Loaded polygons carry the trail value 64 and come after them. |
| `LoadReg.OtherLinesIgnored` | desmasks/loadreg.py:40-41 | A line that is neither a circle nor a polygon contributes nothing. |
| `Masks.IsMasked` | desmasks/masks.py:29-39 | One answer per position, true exactly when the mask value there is > 0 or the bounds value is 0. |
| `Masks.IsUnmasked` | desmasks/masks.py:41-47 | One answer per position: the negation of `IsMasked`. |
| `Masks.GetMaskFlags` | desmasks/masks.py:49-53 | One flag per position: the mask map value there. |
| `Masks.UnmaskedMeansCleanAndInside` | desmasks/masks.py:37-47 | A position is unmasked exactly when its mask value is <= 0 and its bounds value is not 0. |
| `Masks.OutsideBoundsIsMasked` | desmasks/masks.py:38 | A position whose bounds value is 0 is masked, whatever the mask map says. |
| `Masks.InsideBoundsMaskedIffFlag` | desmasks/masks.py:34-53 | Inside the bounds, a position is masked exactly when its mask flag is positive. |
| `Masks.FlagsIgnoreBounds` | desmasks/masks.py:49-53 | Replacing the bounds map does not change the flags. |
| `Masks.MaskedIsElementwise` | desmasks/masks.py:34-39 | Querying two position lists together gives the two answers concatenated. |
| `ObjMasks.SecondColumn` | desmasks/objmasks.py:25-29 | An odd count of integers is an error, because they cannot be reshaped into pairs. Otherwise there are `len//2` ids, id `k` being integer `2k+1`. |
| `ObjMasks.LoadedIdsAreFromFile` | desmasks/objmasks.py:28-29 | Every loaded id is the second element of some pair of the file. |
| `ObjMasks.FileIdsAreLoaded` | desmasks/objmasks.py:28-29 | The second element of every pair of the file is loaded. |
| `ObjMasks.ObjMask.constructor` | desmasks/objmasks.py:19-21 | The mask holds the given ids. |
| `ObjMasks.ObjMask.Load` | desmasks/objmasks.py:19-29 | Loading fails exactly on an odd count. Otherwise the mask holds the second column of the pairs. |
| `ObjMasks.ObjMask.IsMasked` | desmasks/objmasks.py:31-40 | One answer per query id, true exactly when the id is in the mask. |
| `ObjMasks.ObjMask.IsUnmasked` | desmasks/objmasks.py:42-46 | One answer per query id, true exactly when the id is not in the mask. |
| `ObjMasks.ObjMask.GetMaskFlags` | desmasks/objmasks.py:48-58 | One flag per query id: 64 if the id is in the mask and 0 otherwise, so every flag is 0 or 64. |
| `Plotting.HexDigitValue` | desmasks/plotting.py:253 | Hex digits and their values correspond one to one. |
| `Plotting.Hex` | desmasks/plotting.py:253 | `%x` gives at least one lowercase hex digit: one exactly below 16, and at least three from 256. |
| `Plotting.HexSpells` | desmasks/plotting.py:253 | The digits `%x` writes for a non-negative number spell that number. |
| `Plotting.Hex02` | desmasks/plotting.py:253 | `%02x` of 0..255 is exactly two zero-padded lowercase digits. A negative number is `-` followed by the digits of its magnitude, and from 16 upwards it is the plain `%x` digits. |
| `Plotting.Hex02Spells` | desmasks/plotting.py:253 | `%02x` of a non-negative number is a digit string that spells the number; the zero padding does not change it. |
| `Plotting.RgbToHex` | desmasks/plotting.py:252-253 | The output starts with `#` and has at least 7 characters. For components in 0..255 it is exactly `#` followed by the two digits of each component. |
| `Plotting.DecodeHex` | desmasks/plotting.py:253 | It decodes exactly the 7-character strings made of `#` and six lowercase hex digits, giving three components in 0..255. |
| `Plotting.DecodeRgbToHex` | desmasks/plotting.py:253 | Decoding the encoding of a byte triple gives the triple back. |
| `Plotting.RgbToHexDecode` | desmasks/plotting.py:253 | Encoding a decoded colour string gives the string back. |
| `Plotting.OutOfRangeNotAColour` | desmasks/plotting.py:253 | A component outside 0..255 gives a string that is not a `#rrggbb` colour. |
| `Plotting.UValsAreMultiplesOf32` | desmasks/plotting.py:12-15 | The mask values are exactly the multiples of 32 from 32 to 480, value `i` being `32*(i+1)`. |
| `Plotting.Reverse` | desmasks/plotting.py:17 | `reversed` puts element `i` at position `len-1-i`. |
| `Plotting.GetColors` | desmasks/plotting.py:11-23 | The keys are exactly the mask values. Value `i` gets the rainbow colour counted `i` from the end. |

## Findings

| source | as written | input that shows it | evidently intended | confidence | as-written member | corrected member |
|---|---|---|---|---|---|---|
| desmasks/loadmasks.py:234-242 | `band` is assigned only when `bands` is given, but the edge-bleed test reads it whenever the table has `band` and `badpix` columns. | `load_polygons` with `bands=None` on a one-row table with columns `band`, `badpix` and `ra_1..dec_4` raises UnboundLocalError on that row. | Read each row's band whenever the table has one, so that u and Y edge bleeds are skipped as the docstring says (line 207). | not executed; read from the code | `LoadMasks.LoadPolygons` | `LoadMasks.LoadPolygonsReadingBand` |

## Left out

- Reading files is not modelled. This covers FITS catalogs (`fitsio`), region files (`open`), the integer file of the object mask (`np.fromfile`), the healsparse maps (`HealSparseMap.read`) and `read_tile_geom`, which only reads. Their contents are parameters.
- The healsparse library is not modelled. This covers building `hs.Circle`/`hs.Polygon` (any check it makes on a primitive), `realize_geom`, and `get_values_pos`, which is the lookup parameter of `TileMask`.
- `float` on a region token is the parameter `parse`. Which strings Python accepts is not modelled.
- `rainbow`, `heat`, the `colorsys` hue arithmetic, `plot_by_val` and `plotrand` are left out. They are floating-point colour maths, random sampling and plotting. `GetColors` takes the rainbow palette as a parameter.
- desmasks/hyperleda.py is not part of this model.
- `get_mask_dir` is left out because it reads `MEDS_DIR` from the environment. The directory is a parameter of `MaskFile` and `BoundsFile`.
- `load_tile_mask` and `load_tile_objmask` are left out because they cannot succeed. desmasks/masks.py:7 passes `with_uvista` to `get_mask_file`, which does not take it. desmasks/objmasks.py:9 calls `files.get_objmask_file`, which does not exist.
- `eu.numpy_util.match` is foreign code. Its use in `is_masked` is modelled as membership of the query id in the mask.
- `print` diagnostics, the `verbose` and `doplot` branches of `load_regions`, `__init__.py` and `setup.py` are left out.
- The extractor objects of desmasks/loadreg.py are not modelled. They are built, asked for their geometry once and dropped, so extraction returns the geometry directly.
- A column read by name without a presence test is assumed present. Examples are `ccdnum`, `badpix`, `band` in `read_imgdata`, and the coordinate columns. The KeyError a missing one would raise is not modelled.
- A catalog row is a fixed record with every field the package reads, not an arbitrary numpy structured array.
- Floating-point rounding is not modelled, so `TrimOffset` and the radius conversion are exact. Nor is the 64-bit width of object ids.
- Masks.IsMasked, Masks.IsUnmasked and Masks.GetMaskFlags require as many Decs as RAs. numpy broadcasting of a scalar against an array is not modelled.
- LoadReg.LoadRegions: its contract says a failing line makes the result an error. It does not say that the error reported is that of the first failing line in file order.
- LoadReg.ParseNumbers: its contract names the error of some bad token, not necessarily the first one, although the definition reports the first.
- Text.Slice: its contract covers bounds inside the string and a negative stop counted from the end. Bounds past either end, which Python clamps, and a start past the stop, which gives the empty string, are handled by the definition through `SliceBound` but are not stated in the ensures.
- Text.Join: its own contract states only the empty join and the first piece. Where the separators go is stated through `Split` by `Text.JoinSplit` and `Text.SplitJoin`.
