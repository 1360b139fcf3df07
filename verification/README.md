# wbw raster-to-matrix helpers in Dafny

This project models `inst/wbw_helpers.py` of the wbw package: the two
helpers that turn a Whitebox raster into a numpy matrix.

- `raster_dtype` takes the string form of the raster's `configs.data_type`.
  It looks that string up in a fixed table of 13 tags and returns the
  numpy element type, or `None` for any other string.
  `WbwHelpers.RasterDtype` models the function itself: it reads
  `configs.dataType` and nothing else (lines 24 and 41) and applies
  `WbwHelpers.DtypeOfTag`, the `dtype_mapping.get(dt, None)` lookup of
  line 43, with the table as the constant `WbwHelpers.DtypeMapping`. The contract of `DtypeOfTag` does not repeat
  the table. It states an independent reading of every Whitebox data type:
  the kind of one channel (float, signed, unsigned) and the channel width,
  which is the cell width divided by the number of channels. Because kind
  and width together fix a numpy type (`NumpyDType.KindAndBitsDetermine`),
  this reading pins down every table entry.
- `wbw_to_matrix` allocates a zero-filled `rows x columns` matrix of that
  element type and copies `get_row_data(i)` into row `i`. The model is the
  method `WbwHelpers.WbwToMatrix`. It fills a fresh `array2<int>`, and its
  loop invariants say which rows are already copied and which are still zero.
  The helper `WbwHelpers.MatrixDtype` is the `dtype` argument of line 17:
  `raster_dtype`'s answer, or numpy's default `float64` for `None`; the
  first two postconditions of `WbwToMatrix` state that choice.

Modules:

- `Wrappers` holds `Option`, which stands for "a value or None".
- `NumpyDType` holds the ten numpy element types, with their kind and
  width. It also holds `Cast`, the value an element of a type keeps after
  a number is stored into it.
- `Whitebox` holds the raster as an immutable record: configuration
  (`rows`, `columns`, and the string form of `data_type`) plus row data.
  It also holds the 13 `RasterDataType` members and their `str()` tags.
- `WbwHelpers` holds the two helpers and the lemmas about them.

Cell values are integers. A float element type keeps a value unchanged.
An integer element type reduces it into the type's two's complement range.

For a tag outside the table, `raster_dtype` returns `None`. `wbw_to_matrix`
then passes `dtype=None` to `np.zeros`, which allocates numpy's default
`float64`; no error is raised. `WbwToMatrix` therefore returns a `Float64`
matrix for an unknown tag.

## Model

| member | source | states |
|---|---|---|
| WbwHelpers.DtypeOfTag | inst/wbw_helpers.py:24-43 | a tag gives a type exactly when it is the `str()` of one of the 13 known data types; any other string gives None, never a default type; for a known data type the type's kind is its channel kind and its width is its channel width |
| WbwHelpers.TagsAreKeys | inst/wbw_helpers.py:25-39 | the `str()` tag of every known data type is a key of the table |
| WbwHelpers.KeysAreTags | inst/wbw_helpers.py:25-39 | every key of the table is the `str()` tag of some known data type |
| WbwHelpers.MappingFollowsChannels | inst/wbw_helpers.py:25-39 | each table entry has the channel kind and channel width of its data type: F64/F32 are 64/32-bit floats, I<n>/U<n> are n-bit signed/unsigned integers, and packed colours are unsigned with cell bits divided by channel count |
| WbwHelpers.PackedColoursCollapse | inst/wbw_helpers.py:30-34 | RGB48 resolves to uint16, the same as U16; RGB24 and RGBA32 both resolve to uint8, the same as U8; so channel grouping is lost |
| WbwHelpers.IntegerName | inst/wbw_helpers.py:28-38 | an integer data type's name is its signedness letter (I signed, U unsigned) followed by its width in decimal, which is 8, 16, 32 or 64 |
| WbwHelpers.StandardWidthsKnown | inst/wbw_helpers.py:28-38 | `RasterDataType.I<w>` and `RasterDataType.U<w>` are in the table for w = 8, 16, 32 and 64 |
| WbwHelpers.IntegerTagsKeepWidth | inst/wbw_helpers.py:28-38 | for any string w, the tag `RasterDataType.I<w>` or `RasterDataType.U<w>` resolves exactly when w is 8, 16, 32 or 64; the result is signed for I and unsigned for U, and its width written in decimal is w |
| WbwHelpers.RasterDtype | inst/wbw_helpers.py:24-43 | the raster's element type comes from its `data_type` string alone: a type exactly when that string is the tag of one of the 13 known data types, and then the type with that data type's channel kind and channel width |
| WbwHelpers.DtypeReadsOnlyTag | inst/wbw_helpers.py:41-43 | two rasters with the same data type string get the same element type, whatever their other fields |
| WbwHelpers.WbwToMatrix | inst/wbw_helpers.py:4-22 | the matrix is newly allocated and exactly rows x columns; its type is raster_dtype's result, or float64 when that is None; every cell (i, j) is the raster's row i, column j stored into that type and so lies in the type's range; a raster whose values all fit the type is copied unchanged (its loop invariants keep rows before i copied and rows from i on still zero) |
| NumpyDType.Cast | inst/wbw_helpers.py:20 | a stored value lies in the element type's range; a value already in range is kept as is; for an integer type the stored value is congruent to the original modulo 2^width |
| NumpyDType.KindAndBitsDetermine | inst/wbw_helpers.py:26-38 | the numpy types in the table are told apart by kind and width alone, so the channel reading fixes each entry |

## Left out

- NumpyDType.Cast: numpy truncates a fractional float toward zero when storing it into an integer element; an out-of-range or NaN float gives a platform-dependent result. The model has integer cells, so truncation never arises, and it uses two's-complement wrap-around for out-of-range values. Whitebox row data is `f64`.
- Floating-point semantics of `float32` and `float64`: a float element keeps the integer it is given, so float32 precision loss is not modelled.
- The Whitebox raster and `get_row_data` are not part of this model. The raster is an immutable record, and `WbwToMatrix` requires one row per row index, each `columns` long. numpy's broadcasting, and its errors on rows of another length, are library behaviour.
- `np.zeros` allocation is reduced to a new zero-filled `array2`. Its memory behaviour and failure on huge shapes are not modelled.
- NoData-to-NaN substitution, flattening to one dimension, and writing a matrix back into a raster are not in `inst/wbw_helpers.py`. There is no code to model them from.
- The code raises no error of its own for an unknown tag or a row of the wrong length, so the model has no error path; see the note on `dtype=None` above.
