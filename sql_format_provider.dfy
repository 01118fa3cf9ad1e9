/**
 * SqlFormatProvider (sqlutil/sqlutil/SqlFormatProvider.cs): a formatter
 * that replaces each interpolated value by a parameter placeholder @p0,
 * @p1, ... numbered by a 32-bit counter that every accepted call advances.
 */
module SqlFormatting {
  import opened Wrappers
  import opened Strings

  const MinInt32 := -0x8000_0000
  const MaxInt32 := 0x7fff_ffff

  newtype int32 = x: int | -0x8000_0000 <= x < 0x8000_0000

  /** IndexCounter++ in unchecked arithmetic: the largest value wraps to the smallest. */
  function Next(c: int32): (n: int32)
    ensures c < MaxInt32 as int32 ==> n as int == c as int + 1
  {
    if c == MaxInt32 as int32 then MinInt32 as int32 else c + 1
  }

  /** The text Format returns for counter value c. */
  function Placeholder(c: int32): string {
    "@p" + IntToString(c as int)
  }

  /** The types GetFormat can be asked for: ICustomFormatter, or any other. */
  datatype FormatType = CustomFormatter | OtherType(name: string)

  class SqlFormatProvider {
    var indexCounter: int32

    constructor ()
      ensures indexCounter == 0
    {
      indexCounter := 0;
    }

    /** GetFormat: the provider itself when asked for a custom formatter, otherwise null. */
    method GetFormat(formatType: FormatType) returns (r: Option<SqlFormatProvider>)
      ensures r.Some? <==> formatType == CustomFormatter
      ensures r.Some? ==> r.value == this
    {
      if formatType == CustomFormatter {
        return Some(this);
      }
      return None;
    }

    /**
     * Format: for another provider, null and no change; for this one, the
     * placeholder of the current counter, which is then advanced. The
     * format string and the argument play no part.
     */
    method Format<A>(format: string, arg: A, formatProvider: object?) returns (r: Option<string>)
      modifies this
      ensures formatProvider != this ==> r == None && indexCounter == old(indexCounter)
      ensures formatProvider == this ==>
        r == Some(Placeholder(old(indexCounter))) && indexCounter == Next(old(indexCounter))
    {
      if formatProvider != this {
        return None;
      }
      r := Some("@p" + IntToString(indexCounter as int));
      indexCounter := Next(indexCounter);
    }
  }

  /** The counter after n accepted calls on a new provider. */
  function CounterAfter(n: nat): int32 {
    if n == 0 then 0 else Next(CounterAfter(n - 1))
  }

  /**
   * Up to 2^32 calls, the counter is the call count read as a signed 32-bit
   * number: n below 2^31, n - 2^32 from there on.
   */
  lemma {:induction false} CounterAfterValue(n: nat)
    requires n < 0x1_0000_0000
    ensures CounterAfter(n) as int == if n < 0x8000_0000 then n else n - 0x1_0000_0000
  {
    if n > 0 {
      CounterAfterValue(n - 1);
    }
  }

  /** Placeholders for different counter values differ. */
  lemma PlaceholderInjective(a: int32, b: int32)
    requires a != b
    ensures Placeholder(a) != Placeholder(b)
  {
    if Placeholder(a) == Placeholder(b) {
      assert IntToString(a as int) == Placeholder(a)[2..] == Placeholder(b)[2..] == IntToString(b as int);
      IntToStringInjective(a as int, b as int);
    }
  }

  /**
   * On a new provider, the call made after n accepted calls returns "@p"
   * followed by n, and among the first 2^32 calls no two return the same
   * placeholder.
   */
  lemma PlaceholdersDistinct(m: nat, n: nat)
    requires m < n < 0x1_0000_0000
    ensures Placeholder(CounterAfter(m)) != Placeholder(CounterAfter(n))
    ensures n < 0x8000_0000 ==> Placeholder(CounterAfter(n)) == "@p" + NatToString(n)
  {
    CounterAfterValue(m);
    CounterAfterValue(n);
    PlaceholderInjective(CounterAfter(m), CounterAfter(n));
  }
}
