/** One followed file among many: what the reader delivers of it over any number of scans is what
    TailGenerations says of that file alone. */
module TailFiles {
  import opened Options
  import opened Lines
  import opened TailReader
  import opened TailGenerations

  // ----- one file's share of the scans -----------------------------------

  /** What a scan meets at a path; a path that is not listed counts as gone. */
  function SightOf(listing: seq<Found>, path: string): Sight {
    if listing == [] then Gone
    else if listing[|listing| - 1].path == path then listing[|listing| - 1].sight
    else SightOf(listing[..|listing| - 1], path)
  }

  function Sights(scans: seq<seq<Found>>, path: string): seq<Sight> {
    seq(|scans|, i requires 0 <= i < |scans| => SightOf(scans[i], path))
  }

  /** The part of one scan's events that comes from the path, when files are read alone. */
  function OwnEvents<Event>(cursors: map<string, Cursor>, fromEnd: bool, listing: seq<Found>, path: string,
                            parse: (Bytes, string) -> Option<Event>): seq<Event> {
    if listing == [] then []
    else
      var f := listing[|listing| - 1];
      OwnEvents(cursors, fromEnd, listing[..|listing| - 1], path, parse)
      + (if f.path == path then Parsed(VisitLines(Get(cursors, path), fromEnd, f.sight), f.service, parse) else [])
  }

  /** The path's events over several scans. */
  function FileEvents<Event>(cursors: map<string, Cursor>, fromEnd: bool, scans: seq<seq<Found>>, path: string,
                             parse: (Bytes, string) -> Option<Event>): seq<Event> {
    if scans == [] then []
    else
      var front := scans[..|scans| - 1];
      FileEvents(cursors, fromEnd, front, path, parse)
      + OwnEvents(ScansCursors(cursors, fromEnd, front), fromEnd, scans[|scans| - 1], path, parse)
  }

  predicate Served(listing: seq<Found>, path: string, service: string) {
    forall i :: 0 <= i < |listing| && listing[i].path == path ==> listing[i].service == service
  }

  predicate Listings(scans: seq<seq<Found>>, path: string, service: string) {
    forall k :: 0 <= k < |scans| ==> DistinctPaths(scans[k]) && Served(scans[k], path, service)
  }

  lemma {:induction false} Unlisted<Event>(cursors: map<string, Cursor>, fromEnd: bool, listing: seq<Found>, path: string,
                                           parse: (Bytes, string) -> Option<Event>)
    requires forall i :: 0 <= i < |listing| ==> listing[i].path != path
    ensures OwnEvents(cursors, fromEnd, listing, path, parse) == [] && SightOf(listing, path) == Gone
  {
    if listing != [] {
      Unlisted(cursors, fromEnd, listing[..|listing| - 1], path, parse);
    }
  }

  /** One scan moves the path's cursor, and yields of it, what a visit of that file alone does. */
  lemma {:induction false} ScanOfOne<Event>(cursors: map<string, Cursor>, fromEnd: bool, listing: seq<Found>, path: string,
                                            service: string, parse: (Bytes, string) -> Option<Event>)
    requires DistinctPaths(listing) && Served(listing, path, service)
    ensures Get(ScanCursors(cursors, fromEnd, listing), path) ==
            VisitCursor(Get(cursors, path), fromEnd, SightOf(listing, path))
    ensures OwnEvents(cursors, fromEnd, listing, path, parse) ==
            Parsed(VisitLines(Get(cursors, path), fromEnd, SightOf(listing, path)), service, parse)
  {
    hide VisitLines;
    if listing == [] {
      GoneGivesNothing(Get(cursors, path), fromEnd);
    } else {
      var front, f := listing[..|listing| - 1], listing[|listing| - 1];
      if f.path == path {
        UnlistedKept(cursors, fromEnd, front, path);
        Unlisted(cursors, fromEnd, front, path, parse);
      } else {
        ScanOfOne(cursors, fromEnd, front, path, service, parse);
      }
    }
  }

  lemma GoneGivesNothing(c: Option<Cursor>, fromEnd: bool)
    ensures VisitLines(c, fromEnd, Gone) == [] && VisitCursor(c, fromEnd, Gone) == c
  {
  }

  // ----- following one file ----------------------------------------------

  function FollowCursor(c: Option<Cursor>, fromEnd: bool, sights: seq<Sight>): Option<Cursor> {
    if sights == [] then c
    else VisitCursor(FollowCursor(c, fromEnd, sights[..|sights| - 1]), fromEnd, sights[|sights| - 1])
  }

  function FollowLines(c: Option<Cursor>, fromEnd: bool, sights: seq<Sight>): seq<Bytes> {
    if sights == [] then []
    else
      var front := sights[..|sights| - 1];
      FollowLines(c, fromEnd, front) + VisitLines(FollowCursor(c, fromEnd, front), fromEnd, sights[|sights| - 1])
  }

  lemma {:induction false} FollowConcat(c: Option<Cursor>, fromEnd: bool, a: seq<Sight>, b: seq<Sight>)
    ensures FollowCursor(c, fromEnd, a + b) == FollowCursor(FollowCursor(c, fromEnd, a), fromEnd, b)
    ensures FollowLines(c, fromEnd, a + b) ==
            FollowLines(c, fromEnd, a) + FollowLines(FollowCursor(c, fromEnd, a), fromEnd, b)
    decreases |b|
  {
    hide VisitCursor, VisitLines;
    if b == [] {
      assert a + b == a;
    } else {
      FollowConcat(c, fromEnd, a, b[..|b| - 1]);
      assert (a + b)[..|a + b| - 1] == a + b[..|b| - 1];
    }
  }

  lemma {:induction false} ParsedConcat<Event>(a: seq<Bytes>, b: seq<Bytes>, service: string, parse: (Bytes, string) -> Option<Event>)
    ensures Parsed(a + b, service, parse) == Parsed(a, service, parse) + Parsed(b, service, parse)
  {
    if b == [] {
      assert a + b == a;
    } else {
      ParsedConcat(a, b[..|b| - 1], service, parse);
      assert (a + b)[..|a + b| - 1] == a + b[..|b| - 1];
    }
  }

  /** Over several scans the path's cursor and events are those of following that file alone. */
  lemma {:induction false} ScansFollow<Event>(cursors: map<string, Cursor>, fromEnd: bool, scans: seq<seq<Found>>, path: string,
                                              service: string, parse: (Bytes, string) -> Option<Event>)
    requires Listings(scans, path, service)
    ensures Get(ScansCursors(cursors, fromEnd, scans), path) ==
            FollowCursor(Get(cursors, path), fromEnd, Sights(scans, path))
    ensures FileEvents(cursors, fromEnd, scans, path, parse) ==
            Parsed(FollowLines(Get(cursors, path), fromEnd, Sights(scans, path)), service, parse)
  {
    if scans != [] {
      hide VisitCursor, VisitLines, ScanCursors, OwnEvents, SightOf;
      var front, last := scans[..|scans| - 1], scans[|scans| - 1];
      ScansFollow(cursors, fromEnd, front, path, service, parse);
      var before := ScansCursors(cursors, fromEnd, front);
      ScanOfOne(before, fromEnd, last, path, service, parse);
      assert Sights(scans, path)[..|scans| - 1] == Sights(front, path);
      ParsedConcat(FollowLines(Get(cursors, path), fromEnd, Sights(front, path)),
        VisitLines(Get(before, path), fromEnd, SightOf(last, path)), service, parse);
    }
  }

  // ----- the file's own life ---------------------------------------------

  function StepSights(w: World, step: Step): seq<Sight>
    requires Enabled(w, step)
  {
    match step
    case Scan(late) => [Seen(w.inodes[Current(w)], |Content(w)|, Content(w) + late)]
    case MissedScan => [Gone]
    case _ => []
  }

  /** What the scans of a run meet at the file. */
  ghost function SightsOf(w: World, fromEnd: bool, steps: seq<Step>): seq<Sight>
    requires ValidRun(w, fromEnd, steps)
    decreases |steps|
  {
    if steps == [] then []
    else StepSights(w, steps[0]) + SightsOf(Apply(w, fromEnd, steps[0]), fromEnd, steps[1..])
  }

  lemma StepFollows(w: World, fromEnd: bool, step: Step)
    requires Enabled(w, step)
    ensures Apply(w, fromEnd, step).cursor == FollowCursor(w.cursor, fromEnd, StepSights(w, step))
    ensures Apply(w, fromEnd, step).out == w.out + FollowLines(w.cursor, fromEnd, StepSights(w, step))
  {
    hide VisitCursor, VisitLines;
    assert [] + VisitLines(w.cursor, fromEnd, Gone) == VisitLines(w.cursor, fromEnd, Gone);
    if step.Scan? || step.MissedScan? {
      assert StepSights(w, step)[..0] == [];
    }
  }

  lemma {:induction false} RunFollows(w: World, fromEnd: bool, steps: seq<Step>)
    requires ValidRun(w, fromEnd, steps)
    ensures Run(w, fromEnd, steps).cursor == FollowCursor(w.cursor, fromEnd, SightsOf(w, fromEnd, steps))
    ensures Run(w, fromEnd, steps).out == w.out + FollowLines(w.cursor, fromEnd, SightsOf(w, fromEnd, steps))
    decreases |steps|
  {
    if steps != [] {
      hide Apply, StepSights, Enabled, FollowCursor, FollowLines;
      var mid := Apply(w, fromEnd, steps[0]);
      StepFollows(w, fromEnd, steps[0]);
      RunFollows(mid, fromEnd, steps[1..]);
      FollowConcat(w.cursor, fromEnd, StepSights(w, steps[0]), SightsOf(mid, fromEnd, steps[1..]));
    } else {
      assert w.out + [] == w.out;
    }
  }

  /** A followed file among any others, over any number of scans: if the scans meet of it what a run of its
      own life lets them meet, its events are the parsed lines of that run, each line that parses giving its
      event once and in order, and the claims of TailGenerations apply to those lines. */
  lemma EventsOfOneFile<Event>(start: World, fromEnd: bool, steps: seq<Step>, scans: seq<seq<Found>>, path: string,
                               service: string, parse: (Bytes, string) -> Option<Event>)
    returns (at: seq<nat>)
    requires Init(start) && ValidRun(start, fromEnd, steps) && Listings(scans, path, service)
    requires Sights(scans, path) == SightsOf(start, fromEnd, steps)
    ensures FileEvents(map[], fromEnd, scans, path, parse) == Parsed(Run(start, fromEnd, steps).out, service, parse)
    ensures Picks(Run(start, fromEnd, steps).out, service, parse, FileEvents(map[], fromEnd, scans, path, parse), at)
    ensures Get(ScansCursors(map[], fromEnd, scans), path) == Run(start, fromEnd, steps).cursor
  {
    hide Picks, ScansCursors, FileEvents, Run, ValidRun;
    at := ParsedPicks(Run(start, fromEnd, steps).out, service, parse);
    ScansFollow(map[], fromEnd, scans, path, service, parse);
    RunFollows(start, fromEnd, steps);
    assert [] + FollowLines(None, fromEnd, Sights(scans, path)) == FollowLines(None, fromEnd, Sights(scans, path));
  }
}
