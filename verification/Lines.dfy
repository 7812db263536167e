/** Splitting a byte stream at newlines, as `*lines, rest = data.split(b"\n")` does. */
module Lines {
  type Bytes = seq<bv8>

  const NEWLINE: bv8 := 10

  /** The terminated lines, without their newlines. */
  function Complete(data: Bytes): seq<Bytes> {
    if data == [] then []
    else
      var front := data[..|data| - 1];
      if data[|data| - 1] == NEWLINE then Complete(front) + [Remainder(front)] else Complete(front)
  }

  /** What follows the last newline. */
  function Remainder(data: Bytes): Bytes {
    if data == [] then []
    else if data[|data| - 1] == NEWLINE then []
    else Remainder(data[..|data| - 1]) + [data[|data| - 1]]
  }

  /** The bytes of some terminated lines. */
  function Unlines(lines: seq<Bytes>): Bytes {
    if lines == [] then [] else Unlines(lines[..|lines| - 1]) + lines[|lines| - 1] + [NEWLINE]
  }

  lemma UnlinesSnoc(lines: seq<Bytes>, line: Bytes)
    ensures Unlines(lines + [line]) == Unlines(lines) + line + [NEWLINE]
  {
    assert (lines + [line])[..|lines|] == lines;
  }

  /** Nothing is lost or invented: the lines with their newlines and the remainder spell the data, and
      no line contains a newline, byte 10. These two facts determine the split. */
  lemma {:induction false} SplitSpells(data: Bytes)
    ensures Unlines(Complete(data)) + Remainder(data) == data
    ensures 10 !in Remainder(data)
    ensures forall i :: 0 <= i < |Complete(data)| ==> 10 !in Complete(data)[i]
  {
    if data != [] {
      var front := data[..|data| - 1];
      SplitSpells(front);
      assert data == front + [data[|data| - 1]];
      if data[|data| - 1] == NEWLINE {
        UnlinesSnoc(Complete(front), Remainder(front));
      }
    }
  }

  lemma SplitSnoc(data: Bytes, b: bv8)
    ensures Complete(data + [b]) == if b == NEWLINE then Complete(data) + [Remainder(data)] else Complete(data)
    ensures Remainder(data + [b]) == if b == NEWLINE then [] else Remainder(data) + [b]
  {
    assert (data + [b])[..|data|] == data;
  }

  /** Splitting in two goes equals splitting at once, when the remainder is carried over. */
  lemma {:induction false} SplitCarries(a: Bytes, b: Bytes)
    ensures Complete(a + b) == Complete(a) + Complete(Remainder(a) + b)
    ensures Remainder(a + b) == Remainder(Remainder(a) + b)
  {
    hide Complete, Remainder;
    if b == [] {
      assert a + b == a && Remainder(a) + b == Remainder(a);
      RemainderIsALine(a);
    } else {
      var front, last := b[..|b| - 1], b[|b| - 1];
      var whole, carried := a + front, Remainder(a) + front;
      SplitCarries(a, front);
      assert a + b == whole + [last] && Remainder(a) + b == carried + [last];
      CarryOn(Complete(a), whole, carried, last);
    }
  }

  lemma CarryOn(before: seq<Bytes>, whole: Bytes, carried: Bytes, last: bv8)
    requires Complete(whole) == before + Complete(carried) && Remainder(whole) == Remainder(carried)
    ensures Complete(whole + [last]) == before + Complete(carried + [last])
    ensures Remainder(whole + [last]) == Remainder(carried + [last])
  {
    hide Complete, Remainder;
    SplitSnoc(whole, last);
    SplitSnoc(carried, last);
  }

  lemma {:induction false} LineIsRemainder(line: Bytes)
    requires NEWLINE !in line
    ensures Complete(line) == [] && Remainder(line) == line
  {
    if line != [] {
      LineIsRemainder(line[..|line| - 1]);
      assert line == line[..|line| - 1] + [line[|line| - 1]];
    }
  }

  lemma RemainderIsALine(data: Bytes)
    ensures Complete(Remainder(data)) == [] && Remainder(Remainder(data)) == Remainder(data)
  {
    SplitSpells(data);
    LineIsRemainder(Remainder(data));
  }

  /** A longer read of the same bytes only adds lines. */
  lemma CompleteGrows(a: Bytes, b: Bytes)
    ensures Complete(a) <= Complete(a + b)
  {
    SplitCarries(a, b);
  }

  /** A block of newlines splits into that many lines. */
  lemma {:induction false} SplitNewlines(data: Bytes)
    requires forall i :: 0 <= i < |data| ==> data[i] == NEWLINE
    ensures |Complete(data)| == |data| && Remainder(data) == []
  {
    if data != [] {
      SplitNewlines(data[..|data| - 1]);
    }
  }
}
