/** `System.out`: a character stream that `print` and `println` append to. */
module Console {

  const NEWLINE: string := "\n"

  /** The text that printing each line with `println`, in order, appends. */
  function Flatten(lines: seq<string>): string {
    if lines == [] then "" else lines[0] + NEWLINE + Flatten(lines[1..])
  }

  lemma {:induction false} FlattenAppend(a: seq<string>, b: seq<string>)
    ensures Flatten(a + b) == Flatten(a) + Flatten(b)
    decreases |a|
  {
    if a != [] {
      assert (a + b)[1..] == a[1..] + b;
      FlattenAppend(a[1..], b);
    } else {
      assert a + b == b;
    }
  }

  /** Printing one block of lines after another writes the text of both blocks. */
  lemma PrintedInTurn(t: string, a: seq<string>, b: seq<string>)
    ensures t + Flatten(a) + Flatten(b) == t + Flatten(a + b)
  {
    FlattenAppend(a, b);
  }

  /** Two `println` calls write the text of the two lines. */
  lemma TwoPrintlns(t: string, x: string, y: string)
    ensures t + Flatten([x]) + Flatten([y]) == t + Flatten([x, y])
  {
    PrintedInTurn(t, [x], [y]);
    assert [x] + [y] == [x, y];
  }

  lemma FlattenPair(x: string, y: string)
    ensures Flatten([x, y]) == x + NEWLINE + y + NEWLINE
  {
    assert [x, y][1..] == [y];
    assert Flatten([y]) == y + NEWLINE + Flatten([]);
  }

  /** Printing a line, then the pieces of a second line and a newline, writes the
      text of the two lines. */
  lemma AppendTwoLines(t: string, first: string, head: string, tail: string)
    ensures t + Flatten([first]) + head + tail + Flatten([""]) == t + Flatten([first, head + tail])
  {
    FlattenPair(first, head + tail);
    assert Flatten([first]) == first + NEWLINE;
    assert Flatten([""]) == NEWLINE;
  }

  class PrintStream {
    /** Everything written to the stream so far. */
    var text: string

    constructor ()
      ensures text == ""
    {
      text := "";
    }

    method Print(s: string)
      modifies this
      ensures text == old(text) + s
    {
      text := text + s;
    }

    method Println(s: string)
      modifies this
      ensures text == old(text) + Flatten([s])
    {
      text := text + s + NEWLINE;
    }
  }
}
