/**
 * The `StreamReader` the dataset reader reads through: a text and a read position.
 * Its abstract state is the list of lines still to be read.
 */
module LineReader {
  import opened Wrappers
  import opened Text

  /**
   * The line starting at `pos` runs to `i`, the first line break or the end; what follows
   * is the text after its "\n", "\r" or "\r\n".
   */
  lemma LinesFrom(text: string, pos: nat, i: nat)
    requires pos < |text| && pos <= i <= |text|
    requires forall j :: pos <= j < i ==> !IsLineBreak(text[j])
    requires i < |text| ==> IsLineBreak(text[i])
    ensures var next := if i == |text| then i
                        else if text[i] == '\r' && i + 1 < |text| && text[i + 1] == '\n' then i + 2
                        else i + 1;
            Lines(text[pos..]) == [text[pos..i]] + Lines(text[next..])
  {
    var rest := text[pos..];
    assert forall j :: 0 <= j < i - pos ==> rest[j] == text[pos + j];
    assert LineEnd(rest) == i - pos;
    assert rest[..i - pos] == text[pos..i];
    if i == |text| {
      assert text[i..] == [];
    } else if text[i] == '\r' && i + 1 < |text| && text[i + 1] == '\n' {
      assert rest[i - pos + 2..] == text[i + 2..];
    } else {
      assert rest[i - pos + 1..] == text[i + 1..];
    }
  }

  class TextReader {
    const text: string
    var pos: nat

    ghost predicate Valid()
      reads this
    {
      pos <= |text|
    }

    /** The lines that the next `ReadLine` calls will return, in order. */
    ghost function Remaining(): seq<string>
      reads this
      requires Valid()
    {
      Lines(text[pos..])
    }

    constructor (text: string)
      ensures Valid() && this.text == text && pos == 0
      ensures Remaining() == Lines(text)
    {
      this.text := text;
      pos := 0;
      assert text[0..] == text;
    }

    /** `Peek`: the next character, or -1 at the end of the text. */
    method Peek() returns (c: int)
      requires Valid()
      ensures c == if pos < |text| then text[pos] as int else -1
      ensures c > -1 <==> Remaining() != []
    {
      c := if pos < |text| then text[pos] as int else -1;
    }

    /** `ReadLine`: the next line without its terminator, or null at the end of the text. */
    method ReadLine() returns (line: Option<string>)
      requires Valid()
      modifies this
      ensures Valid()
      ensures old(Remaining()) == [] ==> line == None && pos == old(pos)
      ensures old(Remaining()) != [] ==> line == Some(old(Remaining())[0]) && Remaining() == old(Remaining())[1..]
    {
      if pos == |text| {
        assert text[pos..] == [];
        return None;
      }
      var i := pos;
      while i < |text| && !IsLineBreak(text[i])
        invariant pos <= i <= |text|
        invariant forall j :: pos <= j < i ==> !IsLineBreak(text[j])
      {
        i := i + 1;
      }
      LinesFrom(text, pos, i);
      line := Some(text[pos..i]);
      if i == |text| {
        pos := i;
      } else if text[i] == '\r' && i + 1 < |text| && text[i + 1] == '\n' {
        pos := i + 2;
      } else {
        pos := i + 1;
      }
    }
  }
}
