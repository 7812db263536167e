/** Splitting and joining text at a separator, as `str.split(sep)` and `sep.join(parts)` do. */
module Text {
  function Split(s: string, sep: char): (parts: seq<string>)
    ensures |parts| >= 1
    ensures forall i :: 0 <= i < |parts| ==> sep !in parts[i]
  {
    if s == "" then [""]
    else
      var parts := Split(s[..|s| - 1], sep);
      if s[|s| - 1] == sep then parts + [""]
      else parts[..|parts| - 1] + [parts[|parts| - 1] + [s[|s| - 1]]]
  }

  function Join(parts: seq<string>, sep: char): string
    requires parts != []
  {
    if |parts| == 1 then parts[0]
    else Join(parts[..|parts| - 1], sep) + [sep] + parts[|parts| - 1]
  }

  /** Unicode's White_Space. */
  predicate WhiteSpace(c: char) {
    || '\t' <= c <= '\r' || c == ' '
    || c == 0x85 as char || c == 0xA0 as char || c == 0x1680 as char
    || 0x2000 as char <= c <= 0x200A as char
    || c == 0x2028 as char || c == 0x2029 as char || c == 0x202F as char || c == 0x205F as char || c == 0x3000 as char
  }

  /** What `str.strip` removes: white space and the four information separators. */
  predicate Blank(c: char) {
    WhiteSpace(c) || 0x1C as char <= c <= 0x1F as char
  }

  function StripLeft(s: string, blank: char -> bool): (r: string)
    ensures r == "" || !blank(r[0])
    ensures |r| <= |s| && r == s[|s| - |r|..]
    ensures forall i :: 0 <= i < |s| - |r| ==> blank(s[i])
  {
    if s != "" && blank(s[0]) then StripLeft(s[1..], blank) else s
  }

  function StripRight(s: string, blank: char -> bool): (r: string)
    ensures r == "" || !blank(r[|r| - 1])
    ensures r <= s && forall i :: |r| <= i < |s| ==> blank(s[i])
  {
    if s != "" && blank(s[|s| - 1]) then StripRight(s[..|s| - 1], blank) else s
  }

  /** Without the blank characters at both ends. */
  function Strip(s: string, blank: char -> bool): string {
    StripRight(StripLeft(s, blank), blank)
  }

  /** Stripping cuts blanks off both ends, and leaves none there. */
  lemma StripMeans(s: string, blank: char -> bool) returns (i: nat, j: nat)
    ensures i <= j <= |s| && Strip(s, blank) == s[i..j]
    ensures forall k :: 0 <= k < i || j <= k < |s| ==> blank(s[k])
    ensures i < j ==> !blank(s[i]) && !blank(s[j - 1])
  {
    hide StripLeft, StripRight;
    var left := StripLeft(s, blank);
    i := |s| - |left|;
    j := i + |Strip(s, blank)|;
    assert left == s[i..] && Strip(s, blank) == left[..j - i];
    forall k | j <= k < |s|
      ensures blank(s[k])
    {
      assert left[k - i] == s[k];
    }
  }

  /** What counts as blank among the ASCII characters: tab to carriage return, the information separators and
      the space. */
  lemma AsciiBlanks(c: char)
    requires c < 128 as char
    ensures Blank(c) <==> c in {' ', '\t', '\n', 0x0B as char, 0x0C as char, '\r', 28 as char, 29 as char, 30 as char, 31 as char}
    ensures WhiteSpace(c) <==> c in {' ', '\t', '\n', 0x0B as char, 0x0C as char, '\r'}
  {
  }

  /** One more character: a separator starts an empty part, anything else extends the last part. */
  lemma SplitSnoc(s: string, c: char, sep: char)
    ensures var parts := Split(s, sep);
            Split(s + [c], sep) == if c == sep then parts + [""] else parts[..|parts| - 1] + [parts[|parts| - 1] + [c]]
  {
    assert (s + [c])[..|s|] == s;
  }

  lemma JoinSnoc(parts: seq<string>, part: string, sep: char)
    requires parts != []
    ensures Join(parts + [part], sep) == Join(parts, sep) + [sep] + part
  {
    assert (parts + [part])[..|parts|] == parts;
  }

  /** Appending to the last part appends to the text. */
  lemma JoinExtend(parts: seq<string>, tail: string, sep: char)
    requires parts != []
    ensures Join(parts[..|parts| - 1] + [parts[|parts| - 1] + tail], sep) == Join(parts, sep) + tail
  {
    var init, last := parts[..|parts| - 1], parts[|parts| - 1];
    assert parts == init + [last];
    if init != [] {
      JoinSnoc(init, last, sep);
      JoinSnoc(init, last + tail, sep);
    }
  }

  /** Splitting loses nothing. */
  lemma {:induction false} JoinSplit(s: string, sep: char)
    ensures Join(Split(s, sep), sep) == s
  {
    if s != "" {
      var front, last := s[..|s| - 1], s[|s| - 1];
      JoinSplit(front, sep);
      assert s == front + [last];
      if last == sep {
        JoinSnoc(Split(front, sep), "", sep);
      } else {
        JoinExtend(Split(front, sep), [last], sep);
      }
    }
  }

  lemma {:induction false} SplitWhole(s: string, sep: char)
    requires sep !in s
    ensures Split(s, sep) == [s]
  {
    if s != "" {
      SplitWhole(s[..|s| - 1], sep);
      assert s == s[..|s| - 1] + [s[|s| - 1]];
    }
  }

  /** A separator ends a part; what follows it is split on its own. */
  lemma {:induction false} SplitAppend(a: string, b: string, sep: char)
    requires sep !in b
    ensures Split(a + [sep] + b, sep) == Split(a, sep) + [b]
  {
    hide Split;
    if b == "" {
      assert a + [sep] + b == a + [sep];
      SplitSnoc(a, sep, sep);
    } else {
      var front, last := b[..|b| - 1], b[|b| - 1];
      var parts := Split(a, sep);
      SplitAppend(a, front, sep);
      SplitSnoc(a + [sep] + front, last, sep);
      assert a + [sep] + b == a + [sep] + front + [last];
      assert (parts + [front])[..|parts|] == parts;
      assert front + [last] == b;
    }
  }

  /** Joining loses nothing when no part contains the separator; so `Split(s)` is the one list of
      separator-free parts that spells `s`. */
  lemma {:induction false} SplitJoin(parts: seq<string>, sep: char)
    requires parts != [] && forall i :: 0 <= i < |parts| ==> sep !in parts[i]
    ensures Split(Join(parts, sep), sep) == parts
  {
    if |parts| == 1 {
      SplitWhole(parts[0], sep);
    } else {
      var init := parts[..|parts| - 1];
      SplitJoin(init, sep);
      SplitAppend(Join(init, sep), parts[|parts| - 1], sep);
    }
  }

  /** `s[i..j]` stands between separators or the ends of `s`. */
  predicate Piece(s: string, sep: char, i: nat, j: nat) {
    && i <= j <= |s|
    && (i == 0 || s[i - 1] == sep)
    && (j == |s| || s[j] == sep)
    && sep !in s[i..j]
  }

  lemma {:induction false} JoinConcat(a: seq<string>, b: seq<string>, sep: char)
    requires a != [] && b != []
    ensures Join(a + b, sep) == Join(a, sep) + [sep] + Join(b, sep)
    decreases |b|
  {
    var init, last := b[..|b| - 1], b[|b| - 1];
    assert a + b == (a + init) + [last];
    if init == [] {
      assert a + init == a;
      JoinSnoc(a, last, sep);
    } else {
      JoinConcat(a, init, sep);
      JoinSnoc(a + init, last, sep);
    }
  }

  /** Splitting distributes over a separator. */
  lemma SplitAt(a: string, b: string, sep: char)
    ensures Split(a + [sep] + b, sep) == Split(a, sep) + Split(b, sep)
  {
    hide Split;
    var parts := Split(a, sep) + Split(b, sep);
    JoinConcat(Split(a, sep), Split(b, sep), sep);
    JoinSplit(a, sep);
    JoinSplit(b, sep);
    SplitJoin(parts, sep);
  }

  /** The parts of a split are the pieces, and nothing else. */
  lemma PartsArePieces(s: string, sep: char, x: string)
    ensures x in Split(s, sep) <==> exists i: nat, j: nat :: Piece(s, sep, i, j) && s[i..j] == x
  {
    if x in Split(s, sep) {
      var k :| 0 <= k < |Split(s, sep)| && Split(s, sep)[k] == x;
      var i, j := PartIsPiece(s, sep, k);
    }
    forall i: nat, j: nat | Piece(s, sep, i, j) && s[i..j] == x
      ensures x in Split(s, sep)
    {
      PieceIsPart(s, sep, i, j);
    }
  }

  lemma {:induction false} PartIsPiece(s: string, sep: char, k: nat) returns (i: nat, j: nat)
    requires k < |Split(s, sep)|
    ensures Piece(s, sep, i, j) && s[i..j] == Split(s, sep)[k]
    ensures k == |Split(s, sep)| - 1 <==> j == |s|
    decreases |s|, 0
  {
    if s == "" {
      i, j := 0, 0;
    } else {
      var front, last := s[..|s| - 1], s[|s| - 1];
      SplitSnoc(front, last, sep);
      assert s == front + [last];
      i, j := LongerPiece(front, last, sep, k);
    }
  }

  lemma {:induction false} LongerPiece(front: string, last: char, sep: char, k: nat) returns (i: nat, j: nat)
    requires k < |Split(front + [last], sep)|
    ensures Piece(front + [last], sep, i, j) && (front + [last])[i..j] == Split(front + [last], sep)[k]
    ensures k == |Split(front + [last], sep)| - 1 <==> j == |front| + 1
    decreases |front|, 1
  {
    hide Split;
    SplitSnoc(front, last, sep);
    var s, n := front + [last], |Split(front, sep)|;
    if k == n {
      i, j := |s|, |s|;
    } else {
      i, j := PartIsPiece(front, sep, k);
      assert s[i..j] == front[i..j];
      if k == n - 1 && last != sep {
        assert s[i..|s|] == front[i..j] + [last];
        j := |s|;
      }
    }
  }

  lemma PieceIsPart(s: string, sep: char, i: nat, j: nat)
    requires Piece(s, sep, i, j)
    ensures s[i..j] in Split(s, sep)
  {
    hide Split;
    var rest := s[i..];
    assert rest[0..j - i] == s[i..j];
    PrefixIsPart(rest, sep, j - i);
    if i > 0 {
      SplitAt(s[..i - 1], rest, sep);
      assert s == s[..i - 1] + [sep] + rest;
    } else {
      assert rest == s;
    }
  }

  lemma PrefixIsPart(s: string, sep: char, j: nat)
    requires Piece(s, sep, 0, j)
    ensures s[0..j] in Split(s, sep)
  {
    hide Split;
    SplitWhole(s[0..j], sep);
    if j < |s| {
      SplitAt(s[0..j], s[j + 1..], sep);
      assert s == s[0..j] + [sep] + s[j + 1..];
      assert Split(s, sep)[0] == s[0..j];
    } else {
      assert s[0..j] == s;
    }
  }
}
