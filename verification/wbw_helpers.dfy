/**
 The two helpers that read a Whitebox raster into a numpy matrix:
 `raster_dtype`, a table from the raster's data type tag to a numpy
 element type, and `wbw_to_matrix`, which allocates a zero-filled
 `rows x columns` matrix of that type and copies the raster in row by row.
 */
module WbwHelpers {
  import opened Wrappers
  import opened NumpyDType
  import opened Whitebox

  /** The table `raster_dtype` consults, keyed by the string form of the data type. */
  const DtypeMapping: map<string, DType> := map[
    "RasterDataType.F64" := Float64,
    "RasterDataType.F32" := Float32,
    "RasterDataType.I64" := Int64,
    "RasterDataType.U64" := UInt64,
    "RasterDataType.RGB48" := UInt16,
    "RasterDataType.I32" := Int32,
    "RasterDataType.U32" := UInt32,
    "RasterDataType.RGB24" := UInt8,
    "RasterDataType.RGBA32" := UInt8,
    "RasterDataType.I16" := Int16,
    "RasterDataType.U16" := UInt16,
    "RasterDataType.I8" := Int8,
    "RasterDataType.U8" := UInt8
  ]

  // The reading of each raster data type that the table follows: the kind
  // of one sample, the bits one cell occupies, and how many channels share
  // them. A packed colour cell is three or four unsigned channels.

  function SampleKind(d: RasterDataType): Kind {
    match d
    case F64 | F32 => FloatKind
    case I64 | I32 | I16 | I8 => SignedKind
    case U64 | U32 | U16 | U8 | RGB48 | RGB24 | RGBA32 => UnsignedKind
  }

  function CellBits(d: RasterDataType): nat {
    match d
    case F64 | I64 | U64 => 64
    case F32 | I32 | U32 | RGBA32 => 32
    case RGB48 => 48
    case RGB24 => 24
    case I16 | U16 => 16
    case I8 | U8 => 8
  }

  function Channels(d: RasterDataType): nat {
    match d
    case RGB48 | RGB24 => 3
    case RGBA32 => 4
    case _ => 1
  }

  /** Width of one channel: the whole cell, or one colour component of a packed cell. */
  function ChannelBits(d: RasterDataType): nat {
    CellBits(d) / Channels(d)
  }

  /** The `str()` tag of each data type, spelled out as the table spells it. */
  lemma TagSpellings()
    ensures Tag(F64) == "RasterDataType.F64"
    ensures Tag(F32) == "RasterDataType.F32"
    ensures Tag(I64) == "RasterDataType.I64"
    ensures Tag(U64) == "RasterDataType.U64"
    ensures Tag(RGB48) == "RasterDataType.RGB48"
    ensures Tag(I32) == "RasterDataType.I32"
    ensures Tag(U32) == "RasterDataType.U32"
    ensures Tag(RGB24) == "RasterDataType.RGB24"
    ensures Tag(RGBA32) == "RasterDataType.RGBA32"
    ensures Tag(I16) == "RasterDataType.I16"
    ensures Tag(U16) == "RasterDataType.U16"
    ensures Tag(I8) == "RasterDataType.I8"
    ensures Tag(U8) == "RasterDataType.U8"
  {
  }

  /** Every known tag is a key of the table. */
  lemma TagsAreKeys()
    ensures forall d :: Tag(d) in DtypeMapping
  {
    TagSpellings();
    forall d ensures Tag(d) in DtypeMapping {
      match d
      case F64 =>
      case F32 =>
      case I64 =>
      case U64 =>
      case RGB48 =>
      case I32 =>
      case U32 =>
      case RGB24 =>
      case RGBA32 =>
      case I16 =>
      case U16 =>
      case I8 =>
      case U8 =>
    }
  }

  /** Every key of the table is a known tag. */
  lemma KeysAreTags()
    ensures forall s :: s in DtypeMapping ==> exists d :: Tag(d) == s
  {
    TagSpellings();
    forall s | s in DtypeMapping ensures exists d :: Tag(d) == s {
      if s == "RasterDataType.F64" { assert Tag(F64) == s; }
      else if s == "RasterDataType.F32" { assert Tag(F32) == s; }
      else if s == "RasterDataType.I64" { assert Tag(I64) == s; }
      else if s == "RasterDataType.U64" { assert Tag(U64) == s; }
      else if s == "RasterDataType.RGB48" { assert Tag(RGB48) == s; }
      else if s == "RasterDataType.I32" { assert Tag(I32) == s; }
      else if s == "RasterDataType.U32" { assert Tag(U32) == s; }
      else if s == "RasterDataType.RGB24" { assert Tag(RGB24) == s; }
      else if s == "RasterDataType.RGBA32" { assert Tag(RGBA32) == s; }
      else if s == "RasterDataType.I16" { assert Tag(I16) == s; }
      else if s == "RasterDataType.U16" { assert Tag(U16) == s; }
      else if s == "RasterDataType.I8" { assert Tag(I8) == s; }
      else { assert Tag(U8) == s; }
    }
  }

  /** The table entry of each known tag has that data type's channel kind and width. */
  lemma MappingFollowsChannels(d: RasterDataType)
    ensures Tag(d) in DtypeMapping
    ensures KindOf(DtypeMapping[Tag(d)]) == SampleKind(d)
    ensures Bits(DtypeMapping[Tag(d)]) == ChannelBits(d)
  {
    TagSpellings();
    match d
    case F64 => assert DtypeMapping[Tag(d)] == Float64;
    case F32 => assert DtypeMapping[Tag(d)] == Float32;
    case I64 => assert DtypeMapping[Tag(d)] == Int64;
    case U64 => assert DtypeMapping[Tag(d)] == UInt64;
    case RGB48 => assert DtypeMapping[Tag(d)] == UInt16;
    case I32 => assert DtypeMapping[Tag(d)] == Int32;
    case U32 => assert DtypeMapping[Tag(d)] == UInt32;
    case RGB24 => assert DtypeMapping[Tag(d)] == UInt8;
    case RGBA32 => assert DtypeMapping[Tag(d)] == UInt8;
    case I16 => assert DtypeMapping[Tag(d)] == Int16;
    case U16 => assert DtypeMapping[Tag(d)] == UInt16;
    case I8 => assert DtypeMapping[Tag(d)] == Int8;
    case U8 => assert DtypeMapping[Tag(d)] == UInt8;
  }

  /**
   `dtype_mapping.get(tag, None)`: a known tag gives the element type whose
   kind and width are that data type's channel kind and width; any other
   string gives `None`.
   */
  function DtypeOfTag(tag: string): (r: Option<DType>)
    ensures r.Some? <==> exists d :: Tag(d) == tag
    ensures forall d :: Tag(d) == tag ==>
              r.Some? && KindOf(r.value) == SampleKind(d) && Bits(r.value) == ChannelBits(d)
  {
    TagsAreKeys();
    KeysAreTags();
    assert forall d :: Tag(d) == tag ==>
             KindOf(DtypeMapping[tag]) == SampleKind(d) && Bits(DtypeMapping[tag]) == ChannelBits(d) by {
      forall d | Tag(d) == tag {
        MappingFollowsChannels(d);
      }
    }
    if tag in DtypeMapping then Some(DtypeMapping[tag]) else None
  }

  /** `raster_dtype`: the element type for the string form of the raster's data type. */
  function RasterDtype(raster: Raster): (r: Option<DType>)
    ensures r.Some? <==> exists d :: Tag(d) == raster.configs.dataType
    ensures forall d :: Tag(d) == raster.configs.dataType ==>
              r.Some? && KindOf(r.value) == SampleKind(d) && Bits(r.value) == ChannelBits(d)
  {
    DtypeOfTag(raster.configs.dataType)
  }

  /** Two queries with the same data type string get the same answer: nothing else is read. */
  lemma DtypeReadsOnlyTag(a: Raster, b: Raster)
    requires a.configs.dataType == b.configs.dataType
    ensures RasterDtype(a) == RasterDtype(b)
  {
  }

  /**
   Packed colour types become one unsigned channel: RGB48 reads like U16,
   RGB24 and RGBA32 read like U8, so channel grouping is not kept.
   */
  lemma PackedColoursCollapse()
    ensures DtypeOfTag(Tag(RGB48)) == DtypeOfTag(Tag(U16)) == Some(UInt16)
    ensures DtypeOfTag(Tag(RGB24)) == DtypeOfTag(Tag(RGBA32)) == DtypeOfTag(Tag(U8)) == Some(UInt8)
  {
    KindAndBitsDetermine(DtypeOfTag(Tag(RGB48)).value, UInt16);
    KindAndBitsDetermine(DtypeOfTag(Tag(U16)).value, UInt16);
    KindAndBitsDetermine(DtypeOfTag(Tag(RGB24)).value, UInt8);
    KindAndBitsDetermine(DtypeOfTag(Tag(RGBA32)).value, UInt8);
    KindAndBitsDetermine(DtypeOfTag(Tag(U8)).value, UInt8);
  }

  /** Decimal notation of a natural number, as it appears in a type name. */
  function DecimalDigits(n: nat): string {
    if n < 10 then ["0123456789"[n]]
    else DecimalDigits(n / 10) + ["0123456789"[n % 10]]
  }

  /** An integer data type's name is its signedness letter followed by its width. */
  lemma IntegerName(d: RasterDataType)
    requires Name(d)[0] == 'I' || Name(d)[0] == 'U'
    ensures SampleKind(d) == (if Name(d)[0] == 'I' then SignedKind else UnsignedKind)
    ensures Name(d)[1..] == DecimalDigits(ChannelBits(d))
    ensures Name(d)[1..] in {"8", "16", "32", "64"}
  {
  }

  /** `I<w>` and `U<w>` name known data types for the four standard widths. */
  lemma StandardWidthsKnown(sign: char, w: string)
    requires sign == 'I' || sign == 'U'
    ensures w in {"8", "16", "32", "64"} ==> DtypeOfTag(Prefix + [sign] + w).Some?
  {
    var s := Prefix + [sign] + w;
    if w == "8" {
      assert Tag(if sign == 'I' then I8 else U8) == s;
    } else if w == "16" {
      assert Tag(if sign == 'I' then I16 else U16) == s;
    } else if w == "32" {
      assert Tag(if sign == 'I' then I32 else U32) == s;
    } else if w == "64" {
      assert Tag(if sign == 'I' then I64 else U64) == s;
    }
  }

  /** A resolved `I<w>` or `U<w>` tag belongs to an integer data type named by `sign` and `w`. */
  lemma ResolvedIntegerTag(sign: char, w: string) returns (d: RasterDataType)
    requires sign == 'I' || sign == 'U'
    requires DtypeOfTag(Prefix + [sign] + w).Some?
    ensures Tag(d) == Prefix + [sign] + w
    ensures Name(d) == [sign] + w
  {
    var s := Prefix + [sign] + w;
    d :| Tag(d) == s;
    assert s == Prefix + ([sign] + w);
    DropPrefix(Prefix, Name(d));
    DropPrefix(Prefix, [sign] + w);
  }

  lemma DropPrefix(p: string, x: string)
    ensures (p + x)[|p|..] == x
  {
  }

  /**
   Tags `RasterDataType.I<w>` and `RasterDataType.U<w>`: such a tag is in
   the table exactly when `w` is 8, 16, 32 or 64, and then it resolves to a
   signed (for `I`) or unsigned (for `U`) type that is `w` bits wide.
   */
  lemma {:induction false} IntegerTagsKeepWidth(sign: char, w: string)
    requires sign == 'I' || sign == 'U'
    ensures DtypeOfTag(Prefix + [sign] + w).Some? <==> w in {"8", "16", "32", "64"}
    ensures DtypeOfTag(Prefix + [sign] + w).Some? ==>
              && KindOf(DtypeOfTag(Prefix + [sign] + w).value) == (if sign == 'I' then SignedKind else UnsignedKind)
              && DecimalDigits(Bits(DtypeOfTag(Prefix + [sign] + w).value)) == w
  {
    StandardWidthsKnown(sign, w);
    if DtypeOfTag(Prefix + [sign] + w).Some? {
      var d := ResolvedIntegerTag(sign, w);
      assert Name(d)[0] == sign && Name(d)[1..] == w;
      IntegerName(d);
    }
  }

  /**
   The element type the matrix is allocated with: `raster_dtype`'s answer,
   or numpy's default `float64` when `np.zeros` is given `dtype=None`.
   */
  function MatrixDtype(raster: Raster): DType {
    match RasterDtype(raster)
    case Some(t) => t
    case None => Float64
  }

  /**
   `wbw_to_matrix`: a `rows x columns` matrix whose row `i` is
   `get_row_data(i)` stored into elements of the matrix's type.
   */
  method WbwToMatrix(raster: Raster) returns (dtype: DType, matrix: array2<int>)
    requires raster.WellFormed()
    ensures fresh(matrix)
    ensures RasterDtype(raster).Some? ==> dtype == RasterDtype(raster).value
    ensures RasterDtype(raster).None? ==> dtype == Float64
    ensures matrix.Length0 == raster.configs.rows && matrix.Length1 == raster.configs.columns
    ensures forall i, j :: 0 <= i < matrix.Length0 && 0 <= j < matrix.Length1 ==>
              matrix[i, j] == Cast(dtype, raster.GetRowData(i)[j])
    ensures forall i, j :: 0 <= i < matrix.Length0 && 0 <= j < matrix.Length1 ==>
              InRange(dtype, matrix[i, j])
    ensures (forall i, j :: 0 <= i < raster.configs.rows && 0 <= j < raster.configs.columns ==>
               InRange(dtype, raster.rowData[i][j])) ==>
            forall i, j :: 0 <= i < matrix.Length0 && 0 <= j < matrix.Length1 ==>
              matrix[i, j] == raster.rowData[i][j]
  {
    var nrows := raster.configs.rows;
    var ncols := raster.configs.columns;
    dtype := MatrixDtype(raster);
    matrix := new int[nrows, ncols]((_, _) => 0);
    for i := 0 to nrows
      invariant forall r, c :: 0 <= r < i && 0 <= c < ncols ==>
                  matrix[r, c] == Cast(dtype, raster.rowData[r][c])
      invariant forall r, c :: i <= r < nrows && 0 <= c < ncols ==> matrix[r, c] == 0
    {
      var row := raster.GetRowData(i);
      for j := 0 to ncols
        invariant forall r, c :: 0 <= r < i && 0 <= c < ncols ==>
                    matrix[r, c] == Cast(dtype, raster.rowData[r][c])
        invariant forall c :: 0 <= c < j ==> matrix[i, c] == Cast(dtype, row[c])
        invariant forall c :: j <= c < ncols ==> matrix[i, c] == 0
        invariant forall r, c :: i < r < nrows && 0 <= c < ncols ==> matrix[r, c] == 0
      {
        matrix[i, j] := Cast(dtype, row[j]);
      }
    }
  }
}
