/** The filesystem tail reader: one `(inode, offset, partial line)` cursor per followed file. */
module TailReader {
  import opened Options
  import opened Lines

  datatype Cursor = Cursor(inode: nat, offset: nat, buffer: Bytes)

  /** What one scan meets at a path: `stat` fails, or it reports an inode and a size and the file, opened
      a moment later, holds `content`. */
  datatype Sight = Gone | Seen(inode: nat, size: nat, content: Bytes)

  /** A path of the listing with its stem and what is found there. */
  datatype Found = Found(path: string, service: string, sight: Sight)

  // ----- one file, one scan ----------------------------------------------

  /** Where reading continues: kept, restarted, or placed on first sight. */
  function Placed(c: Option<Cursor>, fromEnd: bool, inode: nat, size: nat): Cursor {
    if c.None? || c.value.inode != inode then Cursor(inode, if c.None? && fromEnd then size else 0, [])
    else if size < c.value.offset then c.value.(offset := 0, buffer := [])
    else c.value
  }

  function Chunk(c: Cursor, content: Bytes): Bytes {
    if c.offset <= |content| then content[c.offset..] else []
  }

  function VisitCursor(c: Option<Cursor>, fromEnd: bool, sight: Sight): Option<Cursor> {
    match sight
    case Gone => c
    case Seen(inode, size, content) =>
      var p := Placed(c, fromEnd, inode, size);
      if size <= p.offset then Some(p)
      else Some(p.(offset := p.offset + |Chunk(p, content)|, buffer := Remainder(p.buffer + Chunk(p, content))))
  }

  function VisitLines(c: Option<Cursor>, fromEnd: bool, sight: Sight): seq<Bytes> {
    match sight
    case Gone => []
    case Seen(inode, size, content) =>
      var p := Placed(c, fromEnd, inode, size);
      if size <= p.offset then [] else Complete(p.buffer + Chunk(p, content))
  }

  /** The events parsed from some lines; blank lines give none. */
  function Parsed<Event>(lines: seq<Bytes>, service: string, parse: (Bytes, string) -> Option<Event>): seq<Event> {
    if lines == [] then []
    else
      var front := Parsed(lines[..|lines| - 1], service, parse);
      match parse(lines[|lines| - 1], service)
      case None => front
      case Some(event) => front + [event]
  }

  predicate Rising(at: seq<nat>) {
    forall j, k :: 0 <= j < k < |at| ==> at[j] < at[k]
  }

  predicate EventsAt<Event(==)>(lines: seq<Bytes>, service: string, parse: (Bytes, string) -> Option<Event>,
                                events: seq<Event>, at: seq<nat>) {
    |at| == |events| && forall k :: 0 <= k < |at| ==> at[k] < |lines| && parse(lines[at[k]], service) == Some(events[k])
  }

  predicate AllAt<Event>(lines: seq<Bytes>, service: string, parse: (Bytes, string) -> Option<Event>, at: seq<nat>) {
    forall i :: 0 <= i < |lines| && parse(lines[i], service).Some? ==> i in at
  }

  /** The events are those of the lines that parse, in line order, each line giving its event once: `at` says
      which line each event came from. */
  predicate Picks<Event(==)>(lines: seq<Bytes>, service: string, parse: (Bytes, string) -> Option<Event>,
                             events: seq<Event>, at: seq<nat>) {
    Rising(at) && EventsAt(lines, service, parse, events, at) && AllAt(lines, service, parse, at)
  }

  lemma RisingSnoc(at: seq<nat>, n: nat)
    requires Rising(at) && forall k :: 0 <= k < |at| ==> at[k] < n
    ensures Rising(at + [n])
  {
  }

  lemma PicksSnoc<Event>(lines: seq<Bytes>, line: Bytes, service: string, parse: (Bytes, string) -> Option<Event>,
                         events: seq<Event>, at: seq<nat>)
    requires Picks(lines, service, parse, events, at)
    ensures parse(line, service).None? ==> Picks(lines + [line], service, parse, events, at)
    ensures parse(line, service).Some? ==>
              Picks(lines + [line], service, parse, events + [parse(line, service).value], at + [|lines|])
  {
    hide Rising;
    var all := lines + [line];
    assert forall i :: 0 <= i < |lines| ==> all[i] == lines[i];
    assert all[|lines|] == line;
    if parse(line, service).Some? {
      RisingSnoc(at, |lines|);
      AllAtSnoc(lines, line, service, parse, at);
      assert EventsAt(all, service, parse, events + [parse(line, service).value], at + [|lines|]);
    } else {
      assert EventsAt(all, service, parse, events, at);
      assert AllAt(all, service, parse, at);
    }
  }

  lemma AllAtSnoc<Event>(lines: seq<Bytes>, line: Bytes, service: string, parse: (Bytes, string) -> Option<Event>, at: seq<nat>)
    requires AllAt(lines, service, parse, at)
    ensures AllAt(lines + [line], service, parse, at + [|lines|])
  {
    var all := lines + [line];
    forall i | 0 <= i < |all| && parse(all[i], service).Some?
      ensures i in at + [|lines|]
    {
      if i < |lines| {
        assert all[i] == lines[i] && i in at;
      }
    }
  }

  lemma {:induction false} ParsedPicks<Event>(lines: seq<Bytes>, service: string, parse: (Bytes, string) -> Option<Event>)
    returns (at: seq<nat>)
    ensures Picks(lines, service, parse, Parsed(lines, service, parse), at)
  {
    if lines == [] {
      at := [];
    } else {
      hide Picks;
      var front, line := lines[..|lines| - 1], lines[|lines| - 1];
      at := ParsedPicks(front, service, parse);
      PicksSnoc(front, line, service, parse, Parsed(front, service, parse), at);
      assert front + [line] == lines;
      if parse(line, service).Some? {
        at := at + [|front|];
      }
    }
  }

  /** An event's place in a scan: the index of its file in the listing and of its line in what was read there. */
  type Place = (nat, nat)

  predicate Before(a: Place, b: Place) {
    a.0 < b.0 || (a.0 == b.0 && a.1 < b.1)
  }

  predicate InOrder(at: seq<Place>) {
    forall j, k :: 0 <= j < k < |at| ==> Before(at[j], at[k])
  }

  predicate EventAt<Event(==)>(listing: seq<Found>, read: seq<seq<Bytes>>, parse: (Bytes, string) -> Option<Event>,
                               event: Event, at: Place) {
    && at.0 < |read| && at.0 < |listing| && at.1 < |read[at.0]|
    && parse(read[at.0][at.1], listing[at.0].service) == Some(event)
  }

  /** The same for the lines read from each of several files: `at` gives the place of every event, files in
      listing order and lines in file order, and misses no line that parses. */
  predicate Delivers<Event(==)>(listing: seq<Found>, read: seq<seq<Bytes>>, parse: (Bytes, string) -> Option<Event>,
                                events: seq<Event>, at: seq<Place>) {
    && |read| == |listing| && |at| == |events|
    && InOrder(at)
    && (forall k :: 0 <= k < |at| ==> EventAt(listing, read, parse, events[k], at[k]))
    && (forall f, i :: 0 <= f < |read| && 0 <= i < |read[f]| && parse(read[f][i], listing[f].service).Some? ==> (f, i) in at)
  }

  function Numbered(file: nat, picked: seq<nat>): seq<Place> {
    seq(|picked|, k requires 0 <= k < |picked| => (file, picked[k]))
  }

  lemma InOrderMore(at: seq<Place>, file: nat, picked: seq<nat>)
    requires InOrder(at) && Rising(picked) && forall k :: 0 <= k < |at| ==> at[k].0 < file
    ensures InOrder(at + Numbered(file, picked))
  {
  }

  lemma EventsMore<Event>(listing: seq<Found>, read: seq<seq<Bytes>>, parse: (Bytes, string) -> Option<Event>,
                          events: seq<Event>, at: seq<Place>, lines: seq<Bytes>, more: seq<Event>, picked: seq<nat>)
    requires |listing| == |read| + 1 && |at| == |events|
    requires forall k :: 0 <= k < |at| ==> EventAt(listing[..|read|], read, parse, events[k], at[k])
    requires EventsAt(lines, listing[|read|].service, parse, more, picked)
    ensures var all, found := at + Numbered(|read|, picked), events + more;
            && |all| == |found|
            && forall k :: 0 <= k < |all| ==> EventAt(listing, read + [lines], parse, found[k], all[k])
  {
    var all, found := at + Numbered(|read|, picked), events + more;
    forall k | 0 <= k < |all|
      ensures EventAt(listing, read + [lines], parse, found[k], all[k])
    {
      if k < |at| {
        assert EventAt(listing[..|read|], read, parse, events[k], at[k]);
      } else {
        assert all[k] == (|read|, picked[k - |at|]) && found[k] == more[k - |at|];
      }
    }
  }

  lemma PlacesMore<Event>(listing: seq<Found>, read: seq<seq<Bytes>>, parse: (Bytes, string) -> Option<Event>,
                          at: seq<Place>, lines: seq<Bytes>, picked: seq<nat>, f: nat, i: nat)
    requires |listing| == |read| + 1
    requires forall g, j :: 0 <= g < |read| && 0 <= j < |read[g]| && parse(read[g][j], listing[g].service).Some? ==> (g, j) in at
    requires AllAt(lines, listing[|read|].service, parse, picked)
    requires f < |listing| && i < |(read + [lines])[f]| && parse((read + [lines])[f][i], listing[f].service).Some?
    ensures (f, i) in at + Numbered(|read|, picked)
  {
    if f == |read| {
      assert i in picked;
      var k :| 0 <= k < |picked| && picked[k] == i;
      assert Numbered(|read|, picked)[k] == (f, i);
    } else {
      assert (f, i) in at;
    }
  }

  /** One more file read: its events follow those of the files before it. */
  lemma DeliversMore<Event>(listing: seq<Found>, read: seq<seq<Bytes>>, parse: (Bytes, string) -> Option<Event>,
                            events: seq<Event>, at: seq<Place>, lines: seq<Bytes>, more: seq<Event>, picked: seq<nat>)
    requires |listing| == |read| + 1 && Delivers(listing[..|read|], read, parse, events, at)
    requires Picks(lines, listing[|read|].service, parse, more, picked)
    ensures Delivers(listing, read + [lines], parse, events + more, at + Numbered(|read|, picked))
  {
    hide InOrder, Rising, EventsAt, AllAt, Numbered;
    forall k | 0 <= k < |at|
      ensures at[k].0 < |read|
    {
      assert EventAt(listing[..|read|], read, parse, events[k], at[k]);
    }
    InOrderMore(at, |read|, picked);
    EventsMore(listing, read, parse, events, at, lines, more, picked);
    forall f, i | 0 <= f < |listing| && 0 <= i < |(read + [lines])[f]| && parse((read + [lines])[f][i], listing[f].service).Some?
      ensures (f, i) in at + Numbered(|read|, picked)
    {
      PlacesMore(listing, read, parse, at, lines, picked, f, i);
    }
  }

  // ----- one scan of the directory ---------------------------------------

  function Get(cursors: map<string, Cursor>, path: string): Option<Cursor> {
    if path in cursors then Some(cursors[path]) else None
  }

  function Put(cursors: map<string, Cursor>, path: string, c: Option<Cursor>): map<string, Cursor> {
    match c
    case None => cursors
    case Some(cursor) => cursors[path := cursor]
  }

  function ScanCursors(cursors: map<string, Cursor>, fromEnd: bool, listing: seq<Found>): map<string, Cursor> {
    if listing == [] then cursors
    else
      var before := ScanCursors(cursors, fromEnd, listing[..|listing| - 1]);
      var f := listing[|listing| - 1];
      Put(before, f.path, VisitCursor(Get(before, f.path), fromEnd, f.sight))
  }

  function ScanEvents<Event>(cursors: map<string, Cursor>, fromEnd: bool, listing: seq<Found>,
                             parse: (Bytes, string) -> Option<Event>): seq<Event> {
    if listing == [] then []
    else
      var front := listing[..|listing| - 1];
      var f := listing[|listing| - 1];
      ScanEvents(cursors, fromEnd, front, parse)
      + Parsed(VisitLines(Get(ScanCursors(cursors, fromEnd, front), f.path), fromEnd, f.sight), f.service, parse)
  }

  predicate DistinctPaths(listing: seq<Found>) {
    forall i, j :: 0 <= i < j < |listing| ==> listing[i].path != listing[j].path
  }

  /** A path that was not listed keeps its cursor. */
  lemma {:induction false} UnlistedKept(cursors: map<string, Cursor>, fromEnd: bool, listing: seq<Found>, path: string)
    requires forall i :: 0 <= i < |listing| ==> listing[i].path != path
    ensures Get(ScanCursors(cursors, fromEnd, listing), path) == Get(cursors, path)
  {
    if listing != [] {
      UnlistedKept(cursors, fromEnd, listing[..|listing| - 1], path);
    }
  }

  /** Files do not disturb each other: after a scan the cursor of a listed path depends on its own
      file and its own earlier cursor alone. */
  lemma {:induction false} CursorsAreIndependent(cursors: map<string, Cursor>, fromEnd: bool, listing: seq<Found>, i: nat)
    requires DistinctPaths(listing) && i < |listing|
    ensures Get(ScanCursors(cursors, fromEnd, listing), listing[i].path) ==
            VisitCursor(Get(cursors, listing[i].path), fromEnd, listing[i].sight)
  {
    var front := listing[..|listing| - 1];
    if i == |listing| - 1 {
      UnlistedKept(cursors, fromEnd, front, listing[i].path);
    } else {
      assert front[i] == listing[i];
      CursorsAreIndependent(cursors, fromEnd, front, i);
      assert listing[|listing| - 1].path != listing[i].path;
    }
  }

  /** What every listed file gives when it is read alone, from the cursor it had before the scan. */
  function EachAlone<Event>(cursors: map<string, Cursor>, fromEnd: bool, listing: seq<Found>,
                            parse: (Bytes, string) -> Option<Event>): seq<Event> {
    if listing == [] then []
    else
      var f := listing[|listing| - 1];
      EachAlone(cursors, fromEnd, listing[..|listing| - 1], parse)
      + Parsed(VisitLines(Get(cursors, f.path), fromEnd, f.sight), f.service, parse)
  }

  /** A scan reads every file from the cursor it had before the scan, whatever else is listed: its events are
      those of the files read alone, in listing order, and its cursors are theirs. */
  lemma {:induction false} FilesAreIndependent<Event>(cursors: map<string, Cursor>, fromEnd: bool, listing: seq<Found>,
                                                      parse: (Bytes, string) -> Option<Event>)
    requires DistinctPaths(listing)
    ensures ScanEvents(cursors, fromEnd, listing, parse) == EachAlone(cursors, fromEnd, listing, parse)
    ensures forall i :: 0 <= i < |listing| ==>
              Get(ScanCursors(cursors, fromEnd, listing), listing[i].path) ==
              VisitCursor(Get(cursors, listing[i].path), fromEnd, listing[i].sight)
  {
    if listing != [] {
      var front := listing[..|listing| - 1];
      FilesAreIndependent(cursors, fromEnd, front, parse);
      UnlistedKept(cursors, fromEnd, front, listing[|listing| - 1].path);
    }
    forall i | 0 <= i < |listing|
      ensures Get(ScanCursors(cursors, fromEnd, listing), listing[i].path) ==
              VisitCursor(Get(cursors, listing[i].path), fromEnd, listing[i].sight)
    {
      CursorsAreIndependent(cursors, fromEnd, listing, i);
    }
  }

  /** The lines that a scan reads at each path of the listing. */
  function LinesRead(cursors: map<string, Cursor>, fromEnd: bool, listing: seq<Found>): (read: seq<seq<Bytes>>)
    ensures |read| == |listing|
  {
    if listing == [] then []
    else
      var front, f := listing[..|listing| - 1], listing[|listing| - 1];
      LinesRead(cursors, fromEnd, front) + [VisitLines(Get(ScanCursors(cursors, fromEnd, front), f.path), fromEnd, f.sight)]
  }

  /** Each file of the listing was read from the cursor it had before the scan. */
  predicate ReadAlone(cursors: map<string, Cursor>, fromEnd: bool, listing: seq<Found>, read: seq<seq<Bytes>>) {
    && |read| == |listing|
    && forall i :: 0 <= i < |listing| ==> read[i] == VisitLines(Get(cursors, listing[i].path), fromEnd, listing[i].sight)
  }

  lemma {:induction false} LinesReadAlone(cursors: map<string, Cursor>, fromEnd: bool, listing: seq<Found>)
    requires DistinctPaths(listing)
    ensures ReadAlone(cursors, fromEnd, listing, LinesRead(cursors, fromEnd, listing))
  {
    hide VisitLines, ScanCursors, Get;
    if listing != [] {
      LinesReadAlone(cursors, fromEnd, listing[..|listing| - 1]);
      UnlistedKept(cursors, fromEnd, listing[..|listing| - 1], listing[|listing| - 1].path);
    }
  }

  /** A scan delivers every line it read that parses once, in listing and line order. */
  lemma {:induction false} ScanDelivers<Event>(cursors: map<string, Cursor>, fromEnd: bool, listing: seq<Found>,
                                               parse: (Bytes, string) -> Option<Event>)
    returns (at: seq<Place>)
    ensures Delivers(listing, LinesRead(cursors, fromEnd, listing), parse, ScanEvents(cursors, fromEnd, listing, parse), at)
  {
    hide VisitLines, ScanCursors, Picks, Get;
    if listing == [] {
      at := [];
    } else {
      hide Delivers;
      var front, f := listing[..|listing| - 1], listing[|listing| - 1];
      at := ScanDelivers(cursors, fromEnd, front, parse);
      var lines := VisitLines(Get(ScanCursors(cursors, fromEnd, front), f.path), fromEnd, f.sight);
      var picked := ParsedPicks(lines, f.service, parse);
      DeliversMore(listing, LinesRead(cursors, fromEnd, front), parse, ScanEvents(cursors, fromEnd, front, parse), at,
        lines, Parsed(lines, f.service, parse), picked);
      at := at + Numbered(|front|, picked);
    }
  }

  lemma ScanNext<Event>(cursors: map<string, Cursor>, fromEnd: bool, listing: seq<Found>, i: nat,
                        parse: (Bytes, string) -> Option<Event>)
    requires i < |listing|
    ensures var before, f := ScanCursors(cursors, fromEnd, listing[..i]), listing[i];
            && ScanCursors(cursors, fromEnd, listing[..i + 1]) ==
               Put(before, f.path, VisitCursor(Get(before, f.path), fromEnd, f.sight))
            && ScanEvents(cursors, fromEnd, listing[..i + 1], parse) ==
               ScanEvents(cursors, fromEnd, listing[..i], parse)
               + Parsed(VisitLines(Get(before, f.path), fromEnd, f.sight), f.service, parse)
  {
    var upTo := listing[..i + 1];
    assert upTo[..|upTo| - 1] == listing[..i] && upTo[|upTo| - 1] == listing[i];
  }

  /** A visit is placing the cursor and then, if there is more, reading from it. */
  lemma VisitSteps(view: map<string, Cursor>, fromEnd: bool, f: Found)
    ensures f.sight.Gone? ==> Put(view, f.path, VisitCursor(Get(view, f.path), fromEnd, f.sight)) == view
    ensures f.sight.Seen? ==>
              var p := Placed(Get(view, f.path), fromEnd, f.sight.inode, f.sight.size);
              var chunk := Chunk(p, f.sight.content);
              Put(view, f.path, VisitCursor(Get(view, f.path), fromEnd, f.sight)) ==
              if f.sight.size <= p.offset then view[f.path := p]
              else view[f.path := p][f.path := p.(offset := p.offset + |chunk|, buffer := Remainder(p.buffer + chunk))]
  {
  }

  // ----- the poller ------------------------------------------------------

  class FileCursor {
    var inode: nat
    var offset: nat
    var buffer: Bytes

    constructor (inode: nat, offset: nat)
      ensures Value() == Cursor(inode, offset, [])
    {
      this.inode, this.offset, this.buffer := inode, offset, [];
    }

    ghost function Value(): Cursor
      reads this
    {
      Cursor(inode, offset, buffer)
    }
  }

  /** The parsing loop over the lines of one file: every line that parses gives its event, once and in order. */
  method ParseLines<Event>(lines: seq<Bytes>, service: string, parse: (Bytes, string) -> Option<Event>)
    returns (events: seq<Event>, ghost at: seq<nat>)
    ensures events == Parsed(lines, service, parse)
    ensures Picks(lines, service, parse, events, at)
  {
    events, at := [], [];
    var j := 0;
    assert Picks(lines[..0], service, parse, events, at);
    hide Picks;
    while j < |lines|
      invariant 0 <= j <= |lines|
      invariant events == Parsed(lines[..j], service, parse)
      invariant Picks(lines[..j], service, parse, events, at)
    {
      assert lines[..j + 1][..j] == lines[..j] && lines[..j] + [lines[j]] == lines[..j + 1];
      PicksSnoc(lines[..j], lines[j], service, parse, events, at);
      var event := parse(lines[j], service);
      if event.Some? {
        events := events + [event.value];
        at := at + [j];
      }
      j := j + 1;
    }
    assert lines[..j] == lines;
  }

  class Poller {
    const fromEnd: bool
    var cursors: map<string, FileCursor>
    ghost var view: map<string, Cursor>      // the values behind `cursors`
    ghost var Repr: set<FileCursor>

    constructor (fromEnd: bool)
      ensures this.fromEnd == fromEnd && view == map[] && Repr == {}
      ensures Valid()
    {
      this.fromEnd := fromEnd;
      cursors, view, Repr := map[], map[], {};
    }

    /** Every path has a cursor object of its own, and `view` shows its value. */
    ghost predicate Valid()
      reads this, Repr
    {
      && view.Keys == cursors.Keys
      && (forall path :: path in cursors ==> cursors[path] in Repr && cursors[path].Value() == view[path])
      && (forall a, b :: a in cursors && b in cursors && a != b ==> cursors[a] != cursors[b])
    }

    /** Look the cursor up; make one for a new or rotated file, rewind one for a truncated file. */
    method Place(path: string, inode: nat, size: nat) returns (cursor: FileCursor)
      requires Valid()
      modifies this, Repr
      ensures Valid() && fresh(Repr - old(Repr))
      ensures path in cursors && cursors[path] == cursor
      ensures view == old(view)[path := Placed(Get(old(view), path), fromEnd, inode, size)]
    {
      if path in cursors && cursors[path].inode == inode {
        cursor := cursors[path];
        if size < cursor.offset {
          cursor.offset := 0;
          cursor.buffer := [];
        }
      } else {
        var start := if path !in cursors && fromEnd then size else 0;
        cursor := new FileCursor(inode, start);
        cursors := cursors[path := cursor];
        Repr := Repr + {cursor};
      }
      view := view[path := cursor.Value()];
    }

    /** Read from the cursor to the end of the file, keeping the unterminated rest. */
    method Read(path: string, cursor: FileCursor, content: Bytes) returns (lines: seq<Bytes>)
      requires Valid() && path in cursors && cursors[path] == cursor
      modifies this`view, cursor
      ensures Valid()
      ensures var c := old(view)[path];
              var data := c.buffer + Chunk(c, content);
              && lines == Complete(data)
              && view == old(view)[path := c.(offset := c.offset + |Chunk(c, content)|, buffer := Remainder(data))]
    {
      hide Complete, Remainder;
      var chunk := if cursor.offset <= |content| then content[cursor.offset..] else [];
      cursor.offset := cursor.offset + |chunk|;
      var data := cursor.buffer + chunk;
      lines := Complete(data);
      cursor.buffer := Remainder(data);
      view := view[path := cursor.Value()];
    }

    /** The body of the scan loop for one path. */
    method Visit(f: Found) returns (lines: seq<Bytes>)
      requires Valid()
      modifies this, Repr
      ensures Valid() && fresh(Repr - old(Repr))
      ensures view == Put(old(view), f.path, VisitCursor(Get(old(view), f.path), fromEnd, f.sight))
      ensures lines == VisitLines(Get(old(view), f.path), fromEnd, f.sight)
    {
      hide Complete, Remainder;
      ghost var before := view;
      if f.sight.Gone? {
        VisitSteps(before, fromEnd, f);
        return [];
      }
      var cursor := Place(f.path, f.sight.inode, f.sight.size);
      VisitSteps(before, fromEnd, f);
      if f.sight.size > cursor.offset {
        lines := Read(f.path, cursor, f.sight.content);
      } else {
        lines := [];
      }
    }

    /** One blocking scan: cursors and events are those of the file-by-file specification. `read` are the
        lines read at each listed path, and every one of them that parses is delivered once, in order. */
    method Collect<Event>(listing: seq<Found>, parse: (Bytes, string) -> Option<Event>)
      returns (events: seq<Event>, ghost read: seq<seq<Bytes>>, ghost at: seq<Place>)
      requires Valid()
      modifies this, Repr
      ensures Valid() && fresh(Repr - old(Repr))
      ensures view == ScanCursors(old(view), fromEnd, listing)
      ensures events == ScanEvents(old(view), fromEnd, listing, parse)
      ensures Delivers(listing, read, parse, events, at)
      ensures DistinctPaths(listing) ==> ReadAlone(old(view), fromEnd, listing, read)
    {
      events := [];
      var i := 0;
      assert listing[..0] == [];
      assert view == ScanCursors(old(view), fromEnd, []) && events == ScanEvents(old(view), fromEnd, [], parse);
      hide ScanCursors, ScanEvents, Parsed, VisitCursor, VisitLines, Put, Get, Delivers, Picks, LinesRead, ReadAlone, DistinctPaths;
      while i < |listing|
        invariant 0 <= i <= |listing|
        invariant Valid() && fresh(Repr - old(Repr))
        invariant view == ScanCursors(old(view), fromEnd, listing[..i])
        invariant events == ScanEvents(old(view), fromEnd, listing[..i], parse)
      {
        ScanNext(old(view), fromEnd, listing, i, parse);
        var lines := Visit(listing[i]);
        var parsed, _ := ParseLines(lines, listing[i].service, parse);
        events := events + parsed;
        i := i + 1;
      }
      assert listing[..i] == listing;
      read := LinesRead(old(view), fromEnd, listing);
      at := ScanDelivers(old(view), fromEnd, listing, parse);
      if DistinctPaths(listing) {
        LinesReadAlone(old(view), fromEnd, listing);
      }
    }
  }

  /** Events of several scans in a row, and the cursors they leave. */
  function ScansCursors(cursors: map<string, Cursor>, fromEnd: bool, scans: seq<seq<Found>>): map<string, Cursor> {
    if scans == [] then cursors
    else ScanCursors(ScansCursors(cursors, fromEnd, scans[..|scans| - 1]), fromEnd, scans[|scans| - 1])
  }

  function ScansEvents<Event>(cursors: map<string, Cursor>, fromEnd: bool, scans: seq<seq<Found>>,
                              parse: (Bytes, string) -> Option<Event>): seq<Event> {
    if scans == [] then []
    else
      ScansEvents(cursors, fromEnd, scans[..|scans| - 1], parse)
      + ScanEvents(ScansCursors(cursors, fromEnd, scans[..|scans| - 1]), fromEnd, scans[|scans| - 1], parse)
  }

  lemma ScansStep<Event>(cursors: map<string, Cursor>, fromEnd: bool, scans: seq<seq<Found>>, n: nat,
                         parse: (Bytes, string) -> Option<Event>)
    requires n < |scans|
    ensures ScansCursors(cursors, fromEnd, scans[..n + 1]) ==
            ScanCursors(ScansCursors(cursors, fromEnd, scans[..n]), fromEnd, scans[n])
    ensures ScansEvents(cursors, fromEnd, scans[..n + 1], parse) ==
            ScansEvents(cursors, fromEnd, scans[..n], parse)
            + ScanEvents(ScansCursors(cursors, fromEnd, scans[..n]), fromEnd, scans[n], parse)
  {
    var upTo := scans[..n + 1];
    assert upTo[..|upTo| - 1] == scans[..n] && upTo[|upTo| - 1] == scans[n];
  }

  class FileSystemLogReader<Event(0)> {
    const poller: Poller
    const parse: (Bytes, string) -> Option<Event>
    var queue: seq<Event>
    var closed: bool

    constructor (fromEnd: bool, parse: (Bytes, string) -> Option<Event>)
      ensures this.parse == parse && queue == [] && !closed && fresh(poller)
      ensures poller.Valid() && poller.view == map[] && poller.fromEnd == fromEnd
    {
      poller := new Poller(fromEnd);
      this.parse, queue, closed := parse, [], false;
    }

    method AClose()
      modifies this`closed
      ensures closed
    {
      closed := true;
    }

    /** One `__anext__`, against the scans the future holds. The first `used` of them are made; the
        event handed out and the queue left behind are exactly the old queue followed by what those
        scans produced. `None` means that the reader was closed or is still waiting. */
    method Next(future: seq<seq<Found>>) returns (event: Option<Event>, used: nat)
      requires poller.Valid()
      modifies this, poller, poller.Repr
      ensures poller.Valid() && closed == old(closed) && fresh(poller.Repr - old(poller.Repr))
      ensures used <= |future|
      ensures poller.view == ScansCursors(old(poller.view), poller.fromEnd, future[..used])
      ensures (if event.Some? then [event.value] else []) + queue ==
              old(queue) + ScansEvents(old(poller.view), poller.fromEnd, future[..used], parse)
      ensures event.None? ==> closed || (queue == [] && used == |future|)
      ensures event.Some? ==> !closed
      ensures old(queue) != [] || closed ==> used == 0
    {
      hide ScanCursors, ScanEvents;
      used := 0;
      if !closed && queue == [] {
        used := Fill(future);
      }
      if closed || queue == [] {
        return None, used;
      }
      event := Some(queue[0]);
      queue := queue[1..];
    }

    /** Scan until a scan produces something or the future ends. */
    method Fill(future: seq<seq<Found>>) returns (used: nat)
      requires poller.Valid() && queue == []
      modifies this`queue, poller, poller.Repr
      ensures poller.Valid() && fresh(poller.Repr - old(poller.Repr))
      ensures used <= |future| && (queue != [] || used == |future|)
      ensures poller.view == ScansCursors(old(poller.view), poller.fromEnd, future[..used])
      ensures queue == ScansEvents(old(poller.view), poller.fromEnd, future[..used], parse)
    {
      ghost var view := poller.view;
      used := 0;
      while queue == [] && used < |future|
        invariant poller.Valid() && fresh(poller.Repr - old(poller.Repr))
        invariant used <= |future|
        invariant poller.view == ScansCursors(view, poller.fromEnd, future[..used])
        invariant queue == ScansEvents(view, poller.fromEnd, future[..used], parse)
        decreases |future| - used
      {
        ScansStep(view, poller.fromEnd, future, used, parse);
        ScanOnce(future[used]);
        used := used + 1;
      }
    }

    method ScanOnce(listing: seq<Found>)
      requires poller.Valid()
      modifies this`queue, poller, poller.Repr
      ensures poller.Valid() && fresh(poller.Repr - old(poller.Repr))
      ensures poller.view == ScanCursors(old(poller.view), poller.fromEnd, listing)
      ensures queue == old(queue) + ScanEvents(old(poller.view), poller.fromEnd, listing, parse)
    {
      var events, read, at := poller.Collect(listing, parse);
      queue := queue + events;
    }
  }
}
