/** The `ordering` query parameter: a comma separated list of field names, each with an optional `-`. */
module Ordering {
  import opened Options
  import opened Text

  datatype Direction = Asc | Desc

  datatype Item = Item(direction: Direction, field: string)

  const MAX_LENGTH := 100

  // ----- the accepted strings --------------------------------------------

  predicate Letter(c: char) {
    'a' <= c <= 'z' || 'A' <= c <= 'Z' || c == '_'
  }

  /** States of the automaton of `-?[A-Za-z_]+(?:,-?[A-Za-z_]+)*`. */
  datatype State = Start | Signed | Named | Dead

  function Next(state: State, c: char): State {
    match state
    case Start => if c == '-' then Signed else if Letter(c) then Named else Dead
    case Signed => if Letter(c) then Named else Dead
    case Named => if Letter(c) then Named else if c == ',' then Start else Dead
    case Dead => Dead
  }

  function Scan(v: string): State {
    if v == "" then Start else Next(Scan(v[..|v| - 1]), v[|v| - 1])
  }

  /** The pattern matches; its `$` also matches before one final newline. */
  predicate Matches(v: string) {
    Scan(v) == Named || (v != "" && v[|v| - 1] == '\n' && Scan(v[..|v| - 1]) == Named)
  }

  /** The value that reaches `from_str`: stripped, bounded and matched. */
  function Accept(raw: string): (r: Option<string>)
    ensures r.Some? ==> Scan(r.value) == Named && 1 <= |r.value| <= 100
    ensures Scan(raw) == Named && |raw| <= 100 ==> r == Some(raw)
  {
    var v := Strip(raw, WhiteSpace);
    NoEdgeBlanks(raw);
    if |v| <= MAX_LENGTH && Matches(v) then Some(v) else None
  }

  lemma NoEdgeBlanks(raw: string)
    ensures Strip(raw, WhiteSpace) != "" ==> !WhiteSpace(Strip(raw, WhiteSpace)[|Strip(raw, WhiteSpace)| - 1])
    ensures Scan(raw) == Named ==> Strip(raw, WhiteSpace) == raw
  {
    hide Scan, WhiteSpace;
    if Scan(raw) == Named {
      LastIsInk(raw);
      FirstIsInk(raw);
      NothingToStrip(raw);
    }
  }

  lemma LastIsInk(v: string)
    requires Scan(v) == Named
    ensures v != "" && !WhiteSpace(v[|v| - 1])
  {
  }

  lemma NothingToStrip(v: string)
    requires v != "" && !WhiteSpace(v[0]) && !WhiteSpace(v[|v| - 1])
    ensures Strip(v, WhiteSpace) == v
  {
    assert StripLeft(v, WhiteSpace) == v;
  }

  lemma {:induction false} FirstIsInk(v: string)
    requires v != "" && Scan(v) != Dead
    ensures !WhiteSpace(v[0])
  {
    if |v| == 1 {
      assert Scan(v[..0]) == Start;
    } else {
      FirstIsInk(v[..|v| - 1]);
    }
  }

  // ----- parsing and printing --------------------------------------------

  function StripDashes(s: string): string {
    if s != "" && s[0] == '-' then StripDashes(s[1..]) else s
  }

  function ParseItem(part: string): Item {
    Item(if part != "" && part[0] == '-' then Desc else Asc, StripDashes(part))
  }

  function PrintItem(item: Item): string {
    (if item.direction == Desc then "-" else "") + item.field
  }

  function ParseAll(parts: seq<string>): seq<Item> {
    seq(|parts|, i requires 0 <= i < |parts| => ParseItem(parts[i]))
  }

  function FromStr(v: string): Option<seq<Item>> {
    if v == "" then None else Some(ParseAll(Split(v, ',')))
  }

  function Printed(items: seq<Item>): seq<string> {
    seq(|items|, i requires 0 <= i < |items| => PrintItem(items[i]))
  }

  function Print(items: seq<Item>): string
    requires items != []
  {
    Join(Printed(items), ',')
  }

  /** A field name the pattern allows. */
  predicate Name(field: string) {
    field != "" && forall i :: 0 <= i < |field| ==> Letter(field[i])
  }

  /** An optional dash and a name. */
  predicate ItemShape(part: string) {
    Name(part) || (part != "" && part[0] == '-' && Name(part[1..]))
  }

  predicate AllNamed(parts: seq<string>) {
    forall i :: 0 <= i < |parts| ==> Scan(parts[i]) == Named
  }

  /** The state after reading the parts of a text one by one. */
  function ScanEach(parts: seq<string>): State
    requires parts != []
  {
    if AllNamed(parts[..|parts| - 1]) then Scan(parts[|parts| - 1]) else Dead
  }

  lemma EachNext(parts: seq<string>)
    requires parts != []
    ensures ScanEach(parts + [""]) == if ScanEach(parts) == Named then Start else Dead
  {
    var init, last := parts[..|parts| - 1], parts[|parts| - 1];
    assert (parts + [""])[..|parts|] == parts;
    assert parts == init + [last];
    if AllNamed(parts) {
      assert Scan(parts[|init|]) == Named;
      assert forall i :: 0 <= i < |init| ==> init[i] == parts[i];
    }
  }

  lemma EachMore(parts: seq<string>, c: char)
    requires parts != []
    ensures ScanEach(parts[..|parts| - 1] + [parts[|parts| - 1] + [c]]) == Next(ScanEach(parts), c)
  {
    var init, last := parts[..|parts| - 1], parts[|parts| - 1];
    assert (last + [c])[..|last|] == last;
    assert (init + [last + [c]])[..|init|] == init;
  }

  /** The automaton reads part by part. */
  lemma {:induction false} ScanParts(v: string)
    ensures Scan(v) == ScanEach(Split(v, ','))
  {
    if v != "" {
      var front, last := v[..|v| - 1], v[|v| - 1];
      ScanParts(front);
      EachNext(Split(front, ','));
      EachMore(Split(front, ','), last);
      NextComma(Split(front, ','));
    }
  }

  lemma NextComma(parts: seq<string>)
    requires parts != [] && ',' !in parts[|parts| - 1]
    ensures Next(ScanEach(parts), ',') == if ScanEach(parts) == Named then Start else Dead
  {
  }

  lemma NameSnoc(front: string, c: char)
    ensures Name(front + [c]) <==> (front == "" || Name(front)) && Letter(c)
  {
    var name := front + [c];
    if Name(name) {
      assert Letter(name[|front|]);
      assert forall i :: 0 <= i < |front| ==> name[i] == front[i];
    }
  }

  lemma ShapeSnoc(front: string, c: char)
    ensures ItemShape(front + [c]) <==> (front == "" || front == "-" || ItemShape(front)) && Letter(c)
  {
    NameSnoc(front, c);
    if front != "" {
      NameSnoc(front[1..], c);
      assert (front + [c])[1..] == front[1..] + [c];
    }
  }

  /** What each state says about a part read so far. */
  lemma {:induction false} PartScan(part: string)
    requires ',' !in part
    ensures Scan(part) == Start <==> part == ""
    ensures Scan(part) == Signed <==> part == "-"
    ensures Scan(part) == Named <==> ItemShape(part)
  {
    if part != "" {
      var front, last := part[..|part| - 1], part[|part| - 1];
      PartScan(front);
      ShapeSnoc(front, last);
      assert part == front + [last];
    }
  }

  predicate DoubleDash(part: string) {
    |part| >= 2 && part[0] == '-' && part[1] == '-'
  }

  predicate NoDoubleDash(parts: seq<string>) {
    forall i :: 0 <= i < |parts| ==> !DoubleDash(parts[i])
  }

  /** What stripping dashes leaves, and how much it removes. */
  lemma {:induction false} DashesGone(part: string)
    ensures |StripDashes(part)| <= |part|
    ensures part != "" && part[0] == '-' ==> |StripDashes(part)| < |part|
    ensures ',' !in part ==> ',' !in StripDashes(part)
  {
    if part != "" && part[0] == '-' {
      DashesGone(part[1..]);
    }
  }

  /** Printing gives back a part exactly when it does not start with two dashes. */
  lemma ItemRoundTrip(part: string)
    ensures PrintItem(ParseItem(part)) == part <==> !DoubleDash(part)
  {
    if part != "" && part[0] == '-' {
      DashesGone(part[1..]);
      assert part == "-" + part[1..];
    }
  }

  /** Parsing then printing is the identity on exactly the strings none of whose parts starts with two
      dashes. */
  lemma ParsePrint(v: string)
    requires v != ""
    ensures Print(FromStr(v).value) == v <==> NoDoubleDash(Split(v, ','))
  {
    var parts := Split(v, ',');
    PartsRoundTrip(parts);
    JoinSplit(v, ',');
    SplitJoin(Printed(ParseAll(parts)), ',');
  }

  lemma PartsRoundTrip(parts: seq<string>)
    requires forall i :: 0 <= i < |parts| ==> ',' !in parts[i]
    ensures var printed := Printed(ParseAll(parts));
            && |printed| == |parts|
            && (printed == parts <==> NoDoubleDash(parts))
            && forall i :: 0 <= i < |printed| ==> ',' !in printed[i]
  {
    var printed := Printed(ParseAll(parts));
    forall i | 0 <= i < |parts|
      ensures printed[i] == PrintItem(ParseItem(parts[i]))
      ensures printed[i] == parts[i] <==> !DoubleDash(parts[i])
      ensures ',' !in printed[i]
    {
      ItemRoundTrip(parts[i]);
      DashesGone(parts[i]);
    }
    if !NoDoubleDash(parts) {
      var i :| 0 <= i < |parts| && DoubleDash(parts[i]);
      assert printed[i] != parts[i];
    }
  }

  lemma NamedParts(v: string, i: nat)
    requires Scan(v) == Named && i < |Split(v, ',')|
    ensures ItemShape(Split(v, ',')[i])
  {
    ScanParts(v);
    var parts := Split(v, ',');
    assert i < |parts| - 1 ==> parts[..|parts| - 1][i] == parts[i];
    PartScan(parts[i]);
  }

  lemma OneDash(part: string, tail: string)
    requires ItemShape(part)
    ensures !DoubleDash(part + tail)
  {
    assert !Letter('-');
    if part[0] == '-' {
      assert part[1] == part[1..][0];
    }
  }

  /** Parsing then printing is the identity on every string the pattern accepts. */
  lemma AcceptedRoundTrip(v: string)
    requires Matches(v)
    ensures v != "" && Print(FromStr(v).value) == v
  {
    var core := if Scan(v) == Named then v else v[..|v| - 1];
    var parts := Split(core, ',');
    forall i | 0 <= i < |Split(v, ',')|
      ensures !DoubleDash(Split(v, ',')[i])
    {
      NamedParts(core, i);
      OneDash(parts[i], "");
      OneDash(parts[i], "\n");
      assert parts[i] + "" == parts[i];
    }
    ParsePrint(v);
  }

  lemma NamedItem(item: Item)
    requires Name(item.field)
    ensures ParseItem(PrintItem(item)) == item
    ensures ',' !in PrintItem(item) && Scan(PrintItem(item)) == Named
  {
    var part := PrintItem(item);
    assert ',' !in item.field && item.field[0] != '-';
    if item.direction == Desc {
      assert part[1..] == item.field;
      assert StripDashes(part) == StripDashes(item.field) == item.field;
    } else {
      assert part == item.field;
    }
    PartScan(part);
  }

  lemma NamedItems(items: seq<Item>)
    requires items != [] && forall i :: 0 <= i < |items| ==> Name(items[i].field)
    ensures ParseAll(Printed(items)) == items && AllNamed(Printed(items))
    ensures forall i :: 0 <= i < |items| ==> ',' !in Printed(items)[i]
  {
    forall i | 0 <= i < |items|
      ensures ',' !in Printed(items)[i] && ParseItem(Printed(items)[i]) == items[i] && Scan(Printed(items)[i]) == Named
    {
      NamedItem(items[i]);
    }
  }

  /** Printing then parsing is the identity on every non-empty list of items with valid names, and what is
      printed is accepted by the pattern. */
  lemma PrintParse(items: seq<Item>)
    requires items != [] && forall i :: 0 <= i < |items| ==> Name(items[i].field)
    ensures FromStr(Print(items)) == Some(items)
    ensures Scan(Print(items)) == Named
  {
    NamedItems(items);
    SplitJoin(Printed(items), ',');
    ScanParts(Print(items));
    EachNamed(Printed(items));
  }

  lemma EachNamed(parts: seq<string>)
    requires parts != [] && AllNamed(parts)
    ensures ScanEach(parts) == Named
  {
  }

  /** Every accepted text parses to items with valid names. */
  lemma AcceptedItemsAreValid(v: string)
    requires Scan(v) == Named
    ensures FromStr(v).Some? && forall i :: 0 <= i < |FromStr(v).value| ==> Name(FromStr(v).value[i].field)
  {
    forall i | 0 <= i < |Split(v, ',')|
      ensures Name(ParseItem(Split(v, ',')[i]).field)
    {
      NamedParts(v, i);
      NameKept(Split(v, ',')[i]);
    }
  }

  lemma NameKept(part: string)
    requires ItemShape(part)
    ensures Name(ParseItem(part).field)
  {
    assert !Letter('-');
    if part[0] == '-' {
      assert StripDashes(part) == StripDashes(part[1..]) == part[1..];
    }
  }

  // ----- what an ordering text says --------------------------------------

  /** One or more ASCII letters or underscores. */
  predicate OrderingName(name: string) {
    name != "" && forall i :: 0 <= i < |name| ==> 'a' <= name[i] <= 'z' || 'A' <= name[i] <= 'Z' || name[i] == '_'
  }

  predicate OrderingPart(part: string) {
    OrderingName(if "-" <= part then part[1..] else part)
  }

  /** Comma separated parts, at least one. */
  predicate OrderingText(v: string) {
    var parts := Split(v, ',');
    forall i :: 0 <= i < |parts| ==> OrderingPart(parts[i])
  }

  lemma PartShape(part: string)
    ensures ItemShape(part) <==> OrderingPart(part)
  {
    DashFirst(part);
    NameShape(if "-" <= part then part[1..] else part);
    assert part != "" && part[0] == '-' ==> !Letter(part[0]);
  }

  lemma NameShape(name: string)
    ensures Name(name) <==> OrderingName(name)
  {
  }

  lemma DashFirst(part: string)
    ensures "-" <= part <==> part != "" && part[0] == '-'
  {
    if part != "" && part[0] == '-' {
      assert part == "-" + part[1..];
    }
  }

  lemma ScanMeans(v: string)
    ensures Scan(v) == Named <==> OrderingText(v)
  {
    var parts := Split(v, ',');
    ScanParts(v);
    forall i | 0 <= i < |parts|
      ensures Scan(parts[i]) == Named <==> OrderingPart(parts[i])
    {
      PartScan(parts[i]);
      PartShape(parts[i]);
    }
    LastPartDecides(parts);
  }

  lemma LastPartDecides(parts: seq<string>)
    requires parts != []
    ensures ScanEach(parts) == Named <==> AllNamed(parts)
  {
    var n := |parts| - 1;
    assert forall i :: 0 <= i < n ==> parts[..n][i] == parts[i];
    if AllNamed(parts) {
      assert AllNamed(parts[..n]);
    }
  }

  /** A raw parameter is accepted exactly when, stripped, it is a comma separated list of names with optional
      dashes and at most 100 characters long. */
  lemma AcceptMeans(raw: string)
    ensures var v := Strip(raw, WhiteSpace);
            Accept(raw) == if |v| <= 100 && OrderingText(v) then Some(v) else None
  {
    hide Scan, Split, Strip, OrderingText;
    var v := Strip(raw, WhiteSpace);
    ScanMeans(v);
    NoEdgeBlanks(raw);
    if OrderingText(v) {
      NoEdgeBlanks(v);
    }
  }

  /** Each part of an accepted text says one item: descending behind a dash, ascending without one. */
  lemma DashMeansDescending(v: string)
    requires OrderingText(v)
    ensures FromStr(v).Some?
    ensures var parts, items := Split(v, ','), FromStr(v).value;
            && |items| == |parts|
            && forall i :: 0 <= i < |parts| ==>
                 items[i] == if "-" <= parts[i] then Item(Desc, parts[i][1..]) else Item(Asc, parts[i])
  {
    var parts := Split(v, ',');
    assert v != "" by {
      ScanMeans(v);
    }
    forall i | 0 <= i < |parts|
      ensures ParseItem(parts[i]) == if "-" <= parts[i] then Item(Desc, parts[i][1..]) else Item(Asc, parts[i])
    {
      assert OrderingPart(parts[i]);
      PartItem(parts[i]);
    }
  }

  lemma PartItem(part: string)
    requires OrderingPart(part)
    ensures ParseItem(part) == if "-" <= part then Item(Desc, part[1..]) else Item(Asc, part)
  {
    DashFirst(part);
    if "-" <= part {
      assert part[1..][0] != '-';
      assert StripDashes(part[1..]) == part[1..];
    }
  }
}
