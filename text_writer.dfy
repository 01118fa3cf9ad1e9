/**
 * A StreamWriter over a new file, seen as the lines ended so far and the
 * unfinished last line: Write extends the unfinished line, WriteLine ends it.
 */
module TextFiles {
  import opened Strings

  class TextWriter {
    /** The lines ended by WriteLine so far. */
    var written: seq<string>
    /** Text written since the last line ended. */
    var partial: string

    /** The file's content, with "\n" after each ended line. */
    function Text(): string
      reads this
    {
      Unlines(written) + partial
    }

    constructor ()
      ensures written == [] && partial == ""
    {
      written := [];
      partial := "";
    }

    method Write(s: string)
      modifies this
      ensures written == old(written) && partial == old(partial) + s
    {
      partial := partial + s;
    }

    method WriteLine(s: string)
      modifies this
      ensures written == old(written) + [old(partial) + s] && partial == ""
    {
      written := written + [partial + s];
      partial := "";
    }
  }
}
