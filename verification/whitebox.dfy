/**
 The parts of a Whitebox raster that the helpers read: its configuration
 (dimensions and data type) and its rows of cell values. The raster is an
 immutable value here; the helpers only ever read it.
 */
module Whitebox {

  /** The members of Whitebox's `RasterDataType` enumeration that the helpers know. */
  datatype RasterDataType =
    | F64 | F32
    | I64 | U64
    | RGB48
    | I32 | U32
    | RGB24 | RGBA32
    | I16 | U16
    | I8 | U8

  function Name(d: RasterDataType): string {
    match d
    case F64 => "F64"
    case F32 => "F32"
    case I64 => "I64"
    case U64 => "U64"
    case RGB48 => "RGB48"
    case I32 => "I32"
    case U32 => "U32"
    case RGB24 => "RGB24"
    case RGBA32 => "RGBA32"
    case I16 => "I16"
    case U16 => "U16"
    case I8 => "I8"
    case U8 => "U8"
  }

  /** What `str()` gives for an enumeration member: class name, a dot, member name. */
  const Prefix: string := "RasterDataType."

  function Tag(d: RasterDataType): string {
    Prefix + Name(d)
  }

  /**
   The raster's configuration. `dataType` is the string form of its
   `data_type` field, so a data type outside the known members is
   representable too.
   */
  datatype RasterConfigs = RasterConfigs(rows: nat, columns: nat, dataType: string)

  /** A raster: its configuration and the values `get_row_data(i)` returns for each row `i`. */
  datatype Raster = Raster(configs: RasterConfigs, rowData: seq<seq<int>>) {

    /** One row of values per row index, each `columns` long. */
    predicate WellFormed() {
      && |rowData| == configs.rows
      && forall i :: 0 <= i < |rowData| ==> |rowData[i]| == configs.columns
    }

    function GetRowData(i: nat): seq<int>
      requires i < |rowData|
    {
      rowData[i]
    }
  }
}
