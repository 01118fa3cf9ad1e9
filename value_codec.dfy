/**
 * Writing one row of a table as the tuple of an INSERT ... VALUES statement
 * (CreateValuesList in Data.cs), and the reading SQL Server makes of such a
 * tuple: the model of that reading is what the round-trip lemmas are about.
 */
module ValueCodec {
  import opened Wrappers
  import opened Strings

  /**
   * A value as a data reader returns it. The runtime type decides how it is
   * written; where the written text is .NET's own ToString() of the value
   * (Guid, DateTime, DateTimeOffset, numbers and every other type), the
   * constructor carries that text.
   */
  datatype Value =
    | DbNull                             // null or DBNull.Value
    | Str(s: string)
    | GuidValue(text: string)
    | DateTimeValue(text: string)
    | DateTimeOffsetValue(text: string)
    | BoolValue(b: bool)
    | OtherValue(text: string)           // any other type, e.g. int, decimal, double

  /** The categories written between single quotes. */
  predicate IsQuoted(v: Value) {
    v.Str? || v.GuidValue? || v.DateTimeValue? || v.DateTimeOffsetValue?
  }

  /** s.Replace("'", "''"). */
  function EscapeQuotes(s: string): string {
    ReplaceAll(s, "'", "''")
  }

  /** A SQL string literal holding s. */
  function QuoteLiteral(s: string): string {
    "'" + EscapeQuotes(s) + "'"
  }

  /** The literal written for one value. */
  function EncodeValue(v: Value): string {
    match v
    case DbNull => "null"
    case Str(s) => QuoteLiteral(s)
    case GuidValue(t) => QuoteLiteral(t)
    case DateTimeValue(t) => QuoteLiteral(t)
    case DateTimeOffsetValue(t) => QuoteLiteral(t)
    case BoolValue(b) => if b then "1" else "0"
    case OtherValue(t) => t
  }

  function EncodeAll(values: seq<Value>): (r: seq<string>)
    ensures |r| == |values|
  {
    seq(|values|, i requires 0 <= i < |values| => EncodeValue(values[i]))
  }

  /** One row as "(v1, v2, ...) ", or "" for an empty row. */
  function CreateValuesList(values: seq<Value>): string {
    if values == [] then "" else "(" + Join(", ", EncodeAll(values)) + ") "
  }

  /**
   * CreateValuesList's loop: "(", each value's literal followed by ", "
   * unless it is the last, then ") ".
   */
  method BuildValuesList(values: seq<Value>) returns (s: string)
    ensures s == CreateValuesList(values)
  {
    if |values| == 0 {
      return "";
    }
    ghost var e := EncodeAll(values);
    var rowString := "(";
    for i := 0 to |values|
      invariant i == 0 ==> rowString == "("
      invariant 0 < i ==> rowString == "(" + Join(", ", e[..i]) + (if i < |values| then ", " else "")
    {
      ValuesListStep(e, i, rowString);
      rowString := rowString + EncodeValue(values[i]);
      if i < |values| - 1 {
        rowString := rowString + ", ";
      }
    }
    assert e[..|values|] == e;
    s := rowString + ") ";
  }

  /** One turn of BuildValuesList: the next literal extends the joined prefix. */
  lemma ValuesListStep(e: seq<string>, i: nat, row: string)
    requires i < |e|
    requires row == (if i == 0 then "(" else "(" + Join(", ", e[..i]) + ", ")
    ensures row + e[i] == "(" + Join(", ", e[..i + 1])
  {
    if i == 0 {
      assert e[..1] == [e[0]];
    } else {
      var j := Join(", ", e[..i]);
      assert e[..i + 1] == e[..i] + [e[i]];
      JoinSnoc(", ", e[..i], e[i]);
      calc {
        row + e[i];
        ("(" + j + ", ") + e[i];
        { AppendAssoc("(", j + ", ", e[i]); }
        "(" + (j + ", " + e[i]);
        "(" + Join(", ", e[..i + 1]);
      }
    }
  }

  // ---------------------------------------------------------------------------
  // Reading a tuple back

  /** One item of a VALUES tuple as SQL Server reads it: a bare token or a string literal. */
  datatype Literal = Bare(token: string) | Quoted(text: string)

  /** What a value is read back as: its quoted text, or its bare token. */
  function LiteralOf(v: Value): Literal {
    match v
    case DbNull => Bare("null")
    case Str(s) => Quoted(s)
    case GuidValue(t) => Quoted(t)
    case DateTimeValue(t) => Quoted(t)
    case DateTimeOffsetValue(t) => Quoted(t)
    case BoolValue(b) => Bare(if b then "1" else "0")
    case OtherValue(t) => Bare(t)
  }

  function LiteralsOf(values: seq<Value>): (r: seq<Literal>)
    ensures |r| == |values|
  {
    seq(|values|, i requires 0 <= i < |values| => LiteralOf(values[i]))
  }

  /**
   * The rest of a string literal after its opening quote: "''" stands for
   * one quote, a single quote closes the literal. Gives the text and what
   * follows the closing quote.
   */
  function ReadQuoted(s: string): (r: Option<(string, string)>)
    ensures r.Some? ==> |r.value.1| < |s|
    decreases |s|
  {
    if s == [] then None
    else if s[0] == '\'' then
      if |s| >= 2 && s[1] == '\'' then
        match ReadQuoted(s[2..])
        case None => None
        case Some((t, rest)) => Some(("'" + t, rest))
      else Some(("", s[1..]))
    else
      match ReadQuoted(s[1..])
      case None => None
      case Some((t, rest)) => Some(([s[0]] + t, rest))
  }

  /** Index of the first comma in s, or |s|. */
  function CommaIndex(s: string): (k: nat)
    ensures k <= |s| && ',' !in s[..k]
    ensures k < |s| ==> s[k] == ','
    decreases |s|
  {
    if s == [] || s[0] == ',' then 0
    else
      var k := 1 + CommaIndex(s[1..]);
      assert s[..k] == [s[0]] + s[1..][..k - 1];
      k
  }

  /** The items of a tuple's inside, separated by ", ". */
  function ReadItems(s: string): Option<seq<Literal>>
    decreases |s|
  {
    if s != [] && s[0] == '\'' then
      match ReadQuoted(s[1..])
      case None => None
      case Some((t, rest)) =>
        if rest == [] then Some([Quoted(t)])
        else if StartsWith(rest, ", ") then
          match ReadItems(rest[2..])
          case None => None
          case Some(items) => Some([Quoted(t)] + items)
        else None
    else
      var k := CommaIndex(s);
      if k == |s| then Some([Bare(s)])
      else if StartsWith(s[k..], ", ") then
        match ReadItems(s[k + 2..])
        case None => None
        case Some(items) => Some([Bare(s[..k])] + items)
      else None
  }

  /** A tuple "(" + items + ") " read item by item. */
  function ReadTuple(s: string): Option<seq<Literal>> {
    if |s| >= 3 && s[0] == '(' && s[|s| - 2..] == ") " then ReadItems(s[1..|s| - 2]) else None
  }

  /** A bare token that reads back as itself: no comma, and no opening quote. */
  predicate BareSafe(token: string) {
    ',' !in token && (token == [] || token[0] != '\'')
  }

  /** The default text of every non-quoted value is a safe bare token (true of numbers in an invariant culture). */
  predicate RowBareSafe(values: seq<Value>) {
    forall i :: 0 <= i < |values| && values[i].OtherValue? ==> BareSafe(values[i].text)
  }

  lemma EscapeCons(c: char, u: string)
    ensures EscapeQuotes([c] + u) == (if c == '\'' then "''" else [c]) + EscapeQuotes(u)
  {
    var s := [c] + u;
    assert s[..1] == [c];
    assert s[1..] == u;
  }

  /** Halving the doubled quotes of an escaped text recovers the text. */
  lemma {:induction false} ReadQuotedEscape(t: string, rest: string)
    requires rest == [] || rest[0] != '\''
    ensures ReadQuoted(EscapeQuotes(t) + "'" + rest) == Some((t, rest))
    decreases |t|
  {
    if t == [] {
      assert EscapeQuotes(t) + "'" + rest == "'" + rest;
      assert ("'" + rest)[1..] == rest;
    } else {
      var s := EscapeQuotes(t) + "'" + rest;
      EscapeCons(t[0], t[1..]);
      assert [t[0]] + t[1..] == t;
      ReadQuotedEscape(t[1..], rest);
      if t[0] == '\'' {
        assert s == "''" + (EscapeQuotes(t[1..]) + "'" + rest);
        assert s[2..] == EscapeQuotes(t[1..]) + "'" + rest;
        assert "'" + t[1..] == t;
      } else {
        assert s == [t[0]] + (EscapeQuotes(t[1..]) + "'" + rest);
        assert s[1..] == EscapeQuotes(t[1..]) + "'" + rest;
      }
    }
  }

  /** A quoted value reads back as its text; the literal ends right after the closing quote. */
  lemma QuotedItem(t: string, rest: string)
    requires rest == [] || rest[0] != '\''
    ensures ReadQuoted((QuoteLiteral(t) + rest)[1..]) == Some((t, rest))
  {
    assert (QuoteLiteral(t) + rest)[1..] == EscapeQuotes(t) + "'" + rest;
    ReadQuotedEscape(t, rest);
  }

  lemma {:induction false} CommaIndexAt(tok: string, rest: string)
    requires ',' !in tok && rest != [] && rest[0] == ','
    ensures CommaIndex(tok + rest) == |tok|
    decreases |tok|
  {
    if tok != [] {
      assert (tok + rest)[1..] == tok[1..] + rest;
      CommaIndexAt(tok[1..], rest);
    }
  }

  /** e is the written form of the literal lit, and reads back as it. */
  predicate WrittenAs(e: string, lit: Literal) {
    match lit
    case Quoted(t) => e == QuoteLiteral(t)
    case Bare(tok) => e == tok && BareSafe(tok)
  }

  lemma EncodeValueWrittenAs(v: Value)
    requires v.OtherValue? ==> BareSafe(v.text)
    ensures WrittenAs(EncodeValue(v), LiteralOf(v))
  {
  }

  /** A lone written item reads back as its literal. */
  lemma ReadItemsOne(e: string, lit: Literal)
    requires WrittenAs(e, lit)
    ensures ReadItems(e) == Some([lit])
  {
    if lit.Quoted? {
      QuotedItem(lit.text, "");
      assert e + "" == e;
    }
  }

  /** A written item followed by ", " reads back as its literal, then the rest. */
  lemma ReadItemsCons(e: string, lit: Literal, j: string)
    requires WrittenAs(e, lit)
    ensures ReadItems(e + ", " + j) ==
      match ReadItems(j)
      case None => None
      case Some(items) => Some([lit] + items)
  {
    var s := e + ", " + j;
    var rest := ", " + j;
    assert s == e + rest;
    assert rest[2..] == j;
    if lit.Quoted? {
      QuotedItem(lit.text, rest);
    } else {
      CommaIndexAt(e, rest);
      assert s[..|e|] == e;
      assert s[|e|..] == rest;
      assert s[|e| + 2..] == j;
    }
  }

  lemma JoinEncodeCons(values: seq<Value>)
    requires |values| >= 2
    ensures Join(", ", EncodeAll(values)) == EncodeValue(values[0]) + ", " + Join(", ", EncodeAll(values[1..]))
  {
    assert EncodeAll(values)[1..] == EncodeAll(values[1..]);
  }

  lemma LiteralsOfCons(values: seq<Value>)
    requires values != []
    ensures LiteralsOf(values) == [LiteralOf(values[0])] + LiteralsOf(values[1..])
  {
    assert LiteralsOf(values) == [LiteralOf(values[0])] + LiteralsOf(values[1..]);
  }

  lemma RowBareSafeCons(values: seq<Value>)
    requires values != [] && RowBareSafe(values)
    ensures values[0].OtherValue? ==> BareSafe(values[0].text)
    ensures RowBareSafe(values[1..])
  {
    var tail := values[1..];
    forall i | 0 <= i < |tail| && tail[i].OtherValue? ensures BareSafe(tail[i].text) {
      assert tail[i] == values[i + 1];
    }
  }

  /** Reading the encoded items of a row, joined by ", ", gives one literal per value, in order. */
  lemma {:induction false} ReadItemsJoin(values: seq<Value>)
    requires values != [] && RowBareSafe(values)
    ensures ReadItems(Join(", ", EncodeAll(values))) == Some(LiteralsOf(values))
    decreases |values|
  {
    var v := values[0];
    RowBareSafeCons(values);
    EncodeValueWrittenAs(v);
    LiteralsOfCons(values);
    if |values| == 1 {
      assert Join(", ", EncodeAll(values)) == EncodeValue(v);
      assert LiteralsOf(values) == [LiteralOf(v)];
      ReadItemsOne(EncodeValue(v), LiteralOf(v));
    } else {
      JoinEncodeCons(values);
      ReadItemsJoin(values[1..]);
      ReadItemsCons(EncodeValue(v), LiteralOf(v), Join(", ", EncodeAll(values[1..])));
    }
  }

  /**
   * The tuple written for a non-empty row reads back as exactly one literal
   * per value, in order: quoted values as their original text (quotes halved
   * back), null as null, booleans as 1 or 0, other values as their text.
   */
  lemma CreateValuesListRoundTrip(values: seq<Value>)
    requires values != [] && RowBareSafe(values)
    ensures ReadTuple(CreateValuesList(values)) == Some(LiteralsOf(values))
  {
    var inner := Join(", ", EncodeAll(values));
    var s := CreateValuesList(values);
    assert s == "(" + inner + ") ";
    assert s[1..|s| - 2] == inner;
    assert s[|s| - 2..] == ") ";
    ReadItemsJoin(values);
  }

  /** An empty (or absent) row is written as the empty string. */
  lemma CreateValuesListEmpty()
    ensures CreateValuesList([]) == ""
  {
  }
}
