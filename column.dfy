/**
 * A column of a CSV upload (Models/Column.cs): its name, the .NET type
 * inferred from one sample text, and the SQL column type made from it.
 */
module Columns {
  import opened Wrappers
  import opened Strings

  /** The .NET types a sample text can be classified as. */
  datatype ClrType =
    | GuidType | BoolType | LongType | DateOnlyType | TimeOnlyType | DateTimeType | DecimalType | StringType

  /**
   * The culture-dependent .NET parsers, taken as inputs: each field says
   * which texts the corresponding TryParse accepts. bool.TryParse is fixed
   * by the framework and written out below (BoolTryParse).
   */
  datatype Parsers = Parsers(
    guid: string -> bool,
    int64: string -> bool,
    dateOnly: string -> bool,
    timeOnly: string -> bool,
    dateTime: string -> bool,
    decimal: string -> bool)

  /** The characters bool.TryParse trims: ASCII white space and NUL (other Unicode spaces are not modelled). */
  predicate IsTrimmed(c: char) {
    c == ' ' || ('\t' <= c <= '\r') || c as int == 0
  }

  function TrimStart(s: string): string
    decreases |s|
  {
    if s != [] && IsTrimmed(s[0]) then TrimStart(s[1..]) else s
  }

  function TrimEnd(s: string): string
    decreases |s|
  {
    if s != [] && IsTrimmed(s[|s| - 1]) then TrimEnd(s[..|s| - 1]) else s
  }

  /** bool.TryParse: "true" or "false" in any letter case, surrounding white space ignored. */
  predicate BoolTryParse(s: string) {
    var t := ToLower(TrimEnd(TrimStart(s)));
    t == "true" || t == "false"
  }

  /** Whether the parser for type t accepts s; every text is a string. */
  predicate Accepts(p: Parsers, t: ClrType, s: string) {
    match t
    case GuidType => p.guid(s)
    case BoolType => BoolTryParse(s)
    case LongType => p.int64(s)
    case DateOnlyType => p.dateOnly(s)
    case TimeOnlyType => p.timeOnly(s)
    case DateTimeType => p.dateTime(s)
    case DecimalType => p.decimal(s)
    case StringType => true
  }

  /** The position of each type in the order the parsers are tried. */
  function Rank(t: ClrType): nat {
    match t
    case GuidType => 0
    case BoolType => 1
    case LongType => 2
    case DateOnlyType => 3
    case TimeOnlyType => 4
    case DateTimeType => 5
    case DecimalType => 6
    case StringType => 7
  }

  /**
   * DeriveDataType: the parsers are tried in the order Guid, bool, long,
   * DateOnly, TimeOnly, DateTime, decimal; the first that accepts decides,
   * and a text no parser accepts is a string.
   */
  function DeriveDataType(p: Parsers, input: string): (r: ClrType)
    ensures Accepts(p, r, input)
    ensures forall t :: Rank(t) < Rank(r) ==> !Accepts(p, t, input)
  {
    if p.guid(input) then GuidType
    else if BoolTryParse(input) then BoolType
    else if p.int64(input) then LongType
    else if p.dateOnly(input) then DateOnlyType
    else if p.timeOnly(input) then TimeOnlyType
    else if p.dateTime(input) then DateTimeType
    else if p.decimal(input) then DecimalType
    else StringType
  }

  /** The SQL column type DeriveTypeInfo stores for each inferred type. */
  function CombinedDataTypeFor(t: ClrType): (ddl: string)
    ensures |ddl| > 5 && ddl[|ddl| - 5..] == " null"
  {
    match t
    case GuidType => "uniqueidentifier null"
    case LongType => "bigint null"
    case BoolType => "bit null"
    case DateOnlyType => "date null"
    case TimeOnlyType => "time null"
    case DateTimeType => "datetime2 null"
    case DecimalType => "decimal(25, 10) null"
    case StringType => "nvarchar(max) null"
  }

  /** Reading an inferred SQL column type back as the .NET type it was made for. */
  function TypeOfCombinedDataType(ddl: string): Option<ClrType> {
    if ddl == "uniqueidentifier null" then Some(GuidType)
    else if ddl == "bigint null" then Some(LongType)
    else if ddl == "bit null" then Some(BoolType)
    else if ddl == "date null" then Some(DateOnlyType)
    else if ddl == "time null" then Some(TimeOnlyType)
    else if ddl == "datetime2 null" then Some(DateTimeType)
    else if ddl == "decimal(25, 10) null" then Some(DecimalType)
    else if ddl == "nvarchar(max) null" then Some(StringType)
    else None
  }

  /** Each inferred type has its own SQL column type: the mapping can be read back. */
  lemma CombinedDataTypeRoundTrip(t: ClrType)
    ensures TypeOfCombinedDataType(CombinedDataTypeFor(t)) == Some(t)
  {
    match t
    case GuidType =>
    case LongType =>
      assert "bigint null" != "uniqueidentifier null";
    case BoolType =>
      assert "bit null"[1] != "uniqueidentifier null"[1];
      assert "bit null"[2] != "bigint null"[2];
    case DateOnlyType =>
    case TimeOnlyType =>
    case DateTimeType =>
      assert |"datetime2 null"| != |"date null"|;
    case DecimalType =>
    case StringType =>
  }

  /** The sample "1" is an integer, not a boolean, when the Guid parser rejects it and the long parser accepts it. */
  lemma OneIsLong(p: Parsers)
    requires !p.guid("1") && p.int64("1")
    ensures DeriveDataType(p, "1") == LongType
  {
    assert TrimStart("1") == "1";
    assert TrimEnd("1") == "1";
    assert ToLower("1")[0] == '1';
  }

  /** The sample "true" (in any letter case) is a boolean when the Guid parser rejects it. */
  lemma TrueIsBool(p: Parsers, s: string)
    requires ToLower(s) == "true" && !p.guid(s)
    ensures DeriveDataType(p, s) == BoolType
  {
    assert |s| == 4;
    assert !IsTrimmed(s[0]) by {
      assert ToLower(s)[0] == LowerChar(s[0]) == 't';
    }
    assert !IsTrimmed(s[3]) by {
      assert ToLower(s)[3] == LowerChar(s[3]) == 'e';
    }
    assert TrimStart(s) == s;
    assert TrimEnd(s) == s;
  }

  /** A snapshot of a Column's properties. */
  datatype ColumnInfo = ColumnInfo(name: string, combinedDataType: string, dataType: Option<ClrType>)

  /** Models/Column.cs: Name, CombinedDataType and Type, each updated in place. */
  class Column {
    var name: string
    var combinedDataType: string
    var dataType: Option<ClrType>

    /** new Column(): the empty CombinedDataType marks a column whose type is not inferred yet. */
    constructor ()
      ensures name == "" && combinedDataType == "" && dataType == None
    {
      name := "";
      combinedDataType := "";
      dataType := None;
    }

    function Info(): ColumnInfo
      reads this
    {
      ColumnInfo(name, combinedDataType, dataType)
    }

    /**
     * DeriveTypeInfo: classify the sample and store the type and its SQL
     * column type; the name is left alone. The new state depends only on
     * the input, so repeating the call with the same input changes nothing.
     */
    method DeriveTypeInfo(p: Parsers, input: string)
      modifies this
      ensures dataType == Some(DeriveDataType(p, input))
      ensures combinedDataType == CombinedDataTypeFor(DeriveDataType(p, input))
      ensures combinedDataType != ""
      ensures name == old(name)
    {
      var t := DeriveDataType(p, input);
      dataType := Some(t);
      if t == GuidType {
        combinedDataType := "uniqueidentifier null";
      } else if t == LongType {
        combinedDataType := "bigint null";
      } else if t == BoolType {
        combinedDataType := "bit null";
      } else if t == DateOnlyType {
        combinedDataType := "date null";
      } else if t == TimeOnlyType {
        combinedDataType := "time null";
      } else if t == DateTimeType {
        combinedDataType := "datetime2 null";
      } else if t == DecimalType {
        combinedDataType := "decimal(25, 10) null";
      } else {
        combinedDataType := "nvarchar(max) null";
      }
    }
  }
}
