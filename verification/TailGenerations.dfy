/** One followed file over its whole life: appends, rotations, truncations and scans in any order.

    A generation is one continuous content: it starts with a rotation (a fresh inode under the same
    path) or a truncation (the same inode, new content) and then only grows. Inodes are never reused,
    the file opened by a scan is the one that `stat` saw, and it may have grown in between.
  */
module TailGenerations {
  import opened Options
  import opened Lines
  import opened TailReader

  /** The part of one generation that was read: bytes `from..to`. */
  datatype Segment = Segment(gen: nat, from: nat, to: nat)

  /** The generations read so far, the one being read last. */
  datatype Reading = Reading(done: seq<Segment>, last: Segment)

  /** `gens` and `inodes` are the file's history, the current generation last. `reading` is the
      history of reading that the file alone determines; `cursor` and `out` are the reader's. */
  datatype World = World(
    gens: seq<Bytes>,
    inodes: seq<nat>,
    cursor: Option<Cursor>,
    out: seq<Bytes>,
    reading: Option<Reading>)

  datatype Step =
    | Append(bytes: Bytes)
    | Rotate(inode: nat, bytes: Bytes)
    | Truncate(bytes: Bytes)
    | Scan(late: Bytes)          // `late` is appended between `stat` and the read
    | MissedScan                 // `stat` fails

  predicate WellFormed(w: World) {
    |w.gens| == |w.inodes| >= 1
  }

  function Current(w: World): nat
    requires WellFormed(w)
  {
    |w.gens| - 1
  }

  function Content(w: World): Bytes
    requires WellFormed(w)
  {
    w.gens[Current(w)]
  }

  /** The scan meets the generation it was already reading. */
  predicate SameGeneration(w: World)
    requires WellFormed(w)
  {
    w.reading.Some? && w.reading.value.last.gen == Current(w)
  }

  /** A truncation that happened since the last scan still shows: the file is shorter than the cursor. */
  predicate Detectable(w: World)
    requires WellFormed(w)
  {
    || w.cursor.None?
    || SameGeneration(w)
    || w.cursor.value.inode != w.inodes[Current(w)]
    || |Content(w)| < w.cursor.value.offset
  }

  predicate Enabled(w: World, step: Step) {
    && WellFormed(w)
    && (step.Rotate? ==> step.inode !in w.inodes)
    && (step.Scan? ==> Detectable(w))
  }

  function Grown(gens: seq<Bytes>, bytes: Bytes): seq<Bytes>
    requires |gens| >= 1
  {
    gens[|gens| - 1 := gens[|gens| - 1] + bytes]
  }

  /** Where reading of the current generation stands when a scan starts. */
  function Open(w: World, fromEnd: bool): Reading
    requires WellFormed(w)
  {
    match w.reading
    case None =>
      var start := if fromEnd then |Content(w)| else 0;
      Reading([], Segment(Current(w), start, start))
    case Some(r) =>
      if r.last.gen == Current(w) then r else Reading(r.done + [r.last], Segment(Current(w), 0, 0))
  }

  /** What a scan has read, told from the file alone. */
  function ReadOn(w: World, fromEnd: bool, late: Bytes): Reading
    requires WellFormed(w)
  {
    var open := Open(w, fromEnd);
    if |Content(w)| <= open.last.to then open else open.(last := open.last.(to := |Content(w)| + |late|))
  }

  function Apply(w: World, fromEnd: bool, step: Step): World
    requires Enabled(w, step)
  {
    match step
    case Append(bytes) => w.(gens := Grown(w.gens, bytes))
    case Rotate(inode, bytes) => w.(gens := w.gens + [bytes], inodes := w.inodes + [inode])
    case Truncate(bytes) => w.(gens := w.gens + [bytes], inodes := w.inodes + [w.inodes[Current(w)]])
    case MissedScan => w.(cursor := VisitCursor(w.cursor, fromEnd, Gone), out := w.out + VisitLines(w.cursor, fromEnd, Gone))
    case Scan(late) =>
      var sight := Seen(w.inodes[Current(w)], |Content(w)|, Content(w) + late);
      World(Grown(w.gens, late), w.inodes,
            VisitCursor(w.cursor, fromEnd, sight),
            w.out + VisitLines(w.cursor, fromEnd, sight),
            Some(ReadOn(w, fromEnd, late)))
  }

  ghost predicate Init(w: World) {
    |w.gens| == 1 && |w.inodes| == 1 && w.cursor == None && w.out == [] && w.reading == None
  }

  ghost predicate ValidRun(w: World, fromEnd: bool, steps: seq<Step>)
    decreases |steps|
  {
    steps == [] || (Enabled(w, steps[0]) && ValidRun(Apply(w, fromEnd, steps[0]), fromEnd, steps[1..]))
  }

  ghost function Run(w: World, fromEnd: bool, steps: seq<Step>): World
    requires ValidRun(w, fromEnd, steps)
    decreases |steps|
  {
    if steps == [] then w else Run(Apply(w, fromEnd, steps[0]), fromEnd, steps[1..])
  }

  // ----- the reference ---------------------------------------------------

  predicate Within(gens: seq<Bytes>, s: Segment) {
    s.gen < |gens| && s.from <= s.to <= |gens[s.gen]|
  }

  function Slice(gens: seq<Bytes>, s: Segment): Bytes
    requires Within(gens, s)
  {
    gens[s.gen][s.from..s.to]
  }

  predicate AllWithin(gens: seq<Bytes>, segments: seq<Segment>) {
    forall i :: 0 <= i < |segments| ==> Within(gens, segments[i])
  }

  /** Split each part that was read at once, generation after generation. */
  function Reference(gens: seq<Bytes>, segments: seq<Segment>): seq<Bytes>
    requires AllWithin(gens, segments)
  {
    if segments == [] then []
    else
      Reference(gens, segments[..|segments| - 1]) + Complete(Slice(gens, segments[|segments| - 1]))
  }

  /** Generations are read in order, each once, and after the first one from their top. */
  predicate InOrder(segments: seq<Segment>) {
    && (forall i, j :: 0 <= i < j < |segments| ==> segments[i].gen < segments[j].gen)
    && (forall i :: 0 < i < |segments| ==> segments[i].from == 0)
  }

  ghost predicate ReadingOk(gens: seq<Bytes>, r: Reading, out: seq<Bytes>) {
    && AllWithin(gens, r.done) && Within(gens, r.last)
    && InOrder(r.done)
    && (forall i :: 0 <= i < |r.done| ==> r.done[i].gen < r.last.gen)
    && (r.done != [] ==> r.last.from == 0)
    && out == Reference(gens, r.done) + Complete(Slice(gens, r.last))
  }

  ghost predicate CursorOk(gens: seq<Bytes>, inodes: seq<nat>, last: Segment, cursor: Cursor) {
    && Within(gens, last) && last.gen < |inodes|
    && cursor == Cursor(inodes[last.gen], last.to, Remainder(Slice(gens, last)))
  }

  ghost predicate Inv(w: World) {
    && WellFormed(w)
    && (w.reading.None? ==> w.cursor.None? && w.out == [])
    && (w.reading.Some? ==>
          && w.cursor.Some?
          && ReadingOk(w.gens, w.reading.value, w.out)
          && CursorOk(w.gens, w.inodes, w.reading.value.last, w.cursor.value))
  }

  ghost predicate Extends(gens: seq<Bytes>, gens': seq<Bytes>) {
    |gens| <= |gens'| && forall g :: 0 <= g < |gens| ==> gens[g] <= gens'[g]
  }

  lemma SliceStable(gens: seq<Bytes>, gens': seq<Bytes>, s: Segment)
    requires Within(gens, s) && Extends(gens, gens')
    ensures Within(gens', s) && Slice(gens', s) == Slice(gens, s)
  {
    assert gens[s.gen] <= gens'[s.gen];
  }

  /** Bytes once read never change: the reference does not see later growth or later generations. */
  lemma {:induction false} ReferenceStable(gens: seq<Bytes>, gens': seq<Bytes>, segments: seq<Segment>)
    requires AllWithin(gens, segments) && Extends(gens, gens')
    ensures AllWithin(gens', segments)
    ensures Reference(gens', segments) == Reference(gens, segments)
  {
    if segments != [] {
      SliceStable(gens, gens', segments[|segments| - 1]);
      ReferenceStable(gens, gens', segments[..|segments| - 1]);
    }
  }

  lemma HistoryGrows(w: World, gens': seq<Bytes>, inodes': seq<nat>)
    requires Inv(w) && Extends(w.gens, gens') && |gens'| == |inodes'| && w.inodes <= inodes'
    ensures Inv(w.(gens := gens', inodes := inodes'))
  {
    if w.reading.Some? {
      ReferenceStable(w.gens, gens', w.reading.value.done);
      SliceStable(w.gens, gens', w.reading.value.last);
    }
  }

  // ----- a scan ----------------------------------------------------------

  /** A segment that was opened and not yet read contributes nothing. */
  lemma NothingRead(gens: seq<Bytes>, g: nat, at: nat)
    requires Within(gens, Segment(g, at, at))
    ensures Complete(Slice(gens, Segment(g, at, at))) == [] && Remainder(Slice(gens, Segment(g, at, at))) == []
  {
    assert Slice(gens, Segment(g, at, at)) == [];
  }

  lemma ReferenceSnoc(gens: seq<Bytes>, segments: seq<Segment>, s: Segment)
    requires AllWithin(gens, segments) && Within(gens, s)
    ensures AllWithin(gens, segments + [s])
    ensures Reference(gens, segments + [s]) == Reference(gens, segments) + Complete(Slice(gens, s))
  {
    assert (segments + [s])[..|segments|] == segments;
  }

  lemma OpeningNext(gens: seq<Bytes>, r: Reading, out: seq<Bytes>)
    requires |gens| >= 1 && ReadingOk(gens, r, out) && r.last.gen < |gens| - 1
    ensures ReadingOk(gens, Reading(r.done + [r.last], Segment(|gens| - 1, 0, 0)), out)
  {
    hide Complete, Remainder, Reference, Slice;
    ReferenceSnoc(gens, r.done, r.last);
    NothingRead(gens, |gens| - 1, 0);
    assert out + [] == out;
  }

  lemma OpeningFirst(gens: seq<Bytes>, g: nat, at: nat)
    requires Within(gens, Segment(g, at, at))
    ensures ReadingOk(gens, Reading([], Segment(g, at, at)), [])
  {
    NothingRead(gens, g, at);
  }

  /** Placing the cursor is opening the right segment. */
  lemma PlacingOpens(w: World, fromEnd: bool)
    requires Inv(w) && Detectable(w)
    ensures var open := Open(w, fromEnd);
            && open.last.gen == Current(w)
            && ReadingOk(w.gens, open, w.out)
            && Placed(w.cursor, fromEnd, w.inodes[Current(w)], |Content(w)|) ==
               Cursor(w.inodes[Current(w)], open.last.to, Remainder(Slice(w.gens, open.last)))
  {
    hide Complete, Remainder, Reference, Slice, InOrder;
    var open := Open(w, fromEnd);
    if w.reading.None? {
      OpeningFirst(w.gens, Current(w), open.last.from);
      NothingRead(w.gens, Current(w), open.last.from);
    } else if !SameGeneration(w) {
      OpeningNext(w.gens, w.reading.value, w.out);
      NothingRead(w.gens, Current(w), 0);
    }
  }

  lemma SliceExtends(content: Bytes, late: Bytes, from: nat, to: nat)
    requires from <= to <= |content|
    ensures (content + late)[from..] == content[from..to] + (content + late)[to..]
  {
  }

  /** Reading to the end of the file extends the segment and appends exactly its new lines. */
  lemma ReadingExtends(gens: seq<Bytes>, r: Reading, out: seq<Bytes>, late: Bytes)
    requires |gens| >= 1 && ReadingOk(gens, r, out) && r.last.gen == |gens| - 1
    ensures var content := gens[|gens| - 1] + late;
            var longer := r.(last := r.last.(to := |content|));
            var data := Remainder(Slice(gens, r.last)) + content[r.last.to..];
            && ReadingOk(Grown(gens, late), longer, out + Complete(data))
            && Remainder(Slice(Grown(gens, late), longer.last)) == Remainder(data)
  {
    hide Complete, Remainder, Reference;
    var content := gens[|gens| - 1] + late;
    var grown := Grown(gens, late);
    var longer := r.last.(to := |content|);
    ReferenceStable(gens, grown, r.done);
    SliceExtends(gens[|gens| - 1], late, r.last.from, r.last.to);
    var read, added := Slice(gens, r.last), content[r.last.to..];
    assert Slice(grown, longer) == content[r.last.from..] == read + added;
    SplitCarries(read, added);
    Regroup(Reference(gens, r.done), Complete(read), Complete(Remainder(read) + added));
  }

  lemma Regroup(a: seq<Bytes>, b: seq<Bytes>, c: seq<Bytes>)
    ensures a + b + c == a + (b + c)
  {
  }

  /** What a scan does, with the placed cursor `c` known. */
  lemma ScanApplies(w: World, fromEnd: bool, late: Bytes, c: Cursor)
    requires Enabled(w, Scan(late)) && Placed(w.cursor, fromEnd, w.inodes[Current(w)], |Content(w)|) == c
    requires c.offset == Open(w, fromEnd).last.to
    ensures var open := Open(w, fromEnd);
            var content := Content(w) + late;
            Apply(w, fromEnd, Scan(late)) ==
            if |Content(w)| <= c.offset then
              World(Grown(w.gens, late), w.inodes, Some(c), w.out, Some(open))
            else
              World(Grown(w.gens, late), w.inodes,
                    Some(c.(offset := |content|, buffer := Remainder(c.buffer + content[c.offset..]))),
                    w.out + Complete(c.buffer + content[c.offset..]),
                    Some(open.(last := open.last.(to := |content|))))
  {
    hide Complete, Remainder;
    assert w.out + [] == w.out;
  }

  /** A scan that finds nothing new only places the cursor. */
  lemma IdleScanKeepsInv(w: World, late: Bytes, open: Reading, c: Cursor)
    requires WellFormed(w) && ReadingOk(w.gens, open, w.out) && CursorOk(w.gens, w.inodes, open.last, c)
    ensures Inv(World(Grown(w.gens, late), w.inodes, Some(c), w.out, Some(open)))
  {
    hide Complete, Remainder, Reference;
    HistoryGrows(World(w.gens, w.inodes, Some(c), w.out, Some(open)), Grown(w.gens, late), w.inodes);
  }

  lemma ScanKeepsInv(w: World, fromEnd: bool, late: Bytes)
    requires Inv(w) && Enabled(w, Scan(late))
    ensures Inv(Apply(w, fromEnd, Scan(late)))
  {
    hide Apply, Placed, Complete, Remainder, Reference, InOrder;
    PlacingOpens(w, fromEnd);
    var open := Open(w, fromEnd);
    var c := Placed(w.cursor, fromEnd, w.inodes[Current(w)], |Content(w)|);
    ScanApplies(w, fromEnd, late, c);
    if |Content(w)| <= c.offset {
      IdleScanKeepsInv(w, late, open, c);
    } else {
      ReadingExtends(w.gens, open, w.out, late);
    }
  }

  lemma StepKeepsInv(w: World, fromEnd: bool, step: Step)
    requires Inv(w) && Enabled(w, step)
    ensures Inv(Apply(w, fromEnd, step))
  {
    match step
    case Append(bytes) => HistoryGrows(w, Grown(w.gens, bytes), w.inodes);
    case Rotate(inode, bytes) => HistoryGrows(w, w.gens + [bytes], w.inodes + [inode]);
    case Truncate(bytes) => HistoryGrows(w, w.gens + [bytes], w.inodes + [w.inodes[Current(w)]]);
    case MissedScan => assert w.out + [] == w.out;
    case Scan(late) => ScanKeepsInv(w, fromEnd, late);
  }

  lemma {:induction false} RunKeepsInv(w: World, fromEnd: bool, steps: seq<Step>)
    requires Inv(w) && ValidRun(w, fromEnd, steps)
    ensures Inv(Run(w, fromEnd, steps))
    decreases |steps|
  {
    if steps != [] {
      StepKeepsInv(w, fromEnd, steps[0]);
      RunKeepsInv(Apply(w, fromEnd, steps[0]), fromEnd, steps[1..]);
    }
  }

  function Segments(w: World): seq<Segment> {
    match w.reading
    case None => []
    case Some(r) => r.done + [r.last]
  }

  lemma NothingReferred(gens: seq<Bytes>)
    ensures Reference(gens, []) == [] && InOrder([])
  {
  }

  /** The segments read, the last one included, are in order and their split is the output. */
  lemma AllSegments(gens: seq<Bytes>, r: Reading, out: seq<Bytes>)
    requires ReadingOk(gens, r, out)
    ensures var segments := r.done + [r.last];
            AllWithin(gens, segments) && InOrder(segments) && out == Reference(gens, segments)
  {
    hide Complete, Reference, Slice;
    ReferenceSnoc(gens, r.done, r.last);
  }

  /** The reader agrees with splitting whole generations, over any schedule. The lines produced are,
      generation after generation in order and each generation once, the complete lines of the bytes
      read from it; the partial line kept is what follows the last newline of those bytes. So no line
      joins bytes of two generations and none is produced twice. */
  lemma ReaderRefinesSplitting(start: World, fromEnd: bool, steps: seq<Step>)
    requires Init(start) && ValidRun(start, fromEnd, steps)
    ensures var w := Run(start, fromEnd, steps);
            var segments := Segments(w);
            && AllWithin(w.gens, segments) && InOrder(segments)
            && w.out == Reference(w.gens, segments)
            && (segments == [] <==> w.cursor.None?)
            && (segments != [] ==> w.cursor.value.buffer == Remainder(Slice(w.gens, segments[|segments| - 1])))
  {
    RunKeepsInv(start, fromEnd, steps);
    hide Complete, Remainder, Run, ValidRun, Apply, Reference, InOrder, Slice;
    var w := Run(start, fromEnd, steps);
    NothingReferred(w.gens);
    if w.reading.Some? {
      AllSegments(w.gens, w.reading.value, w.out);
    }
  }

  /** Per generation the output is a prefix of that generation's own complete lines. */
  lemma EachGenerationIsAPrefix(start: World, fromEnd: bool, steps: seq<Step>, i: nat)
    requires Init(start) && ValidRun(start, fromEnd, steps)
    requires i < |Segments(Run(start, fromEnd, steps))|
    ensures var w := Run(start, fromEnd, steps);
            var s := Segments(w)[i];
            Within(w.gens, s) && Complete(Slice(w.gens, s)) <= Complete(w.gens[s.gen][s.from..])
  {
    ReaderRefinesSplitting(start, fromEnd, steps);
    hide Complete, Remainder, Reference, Run, ValidRun, Apply, InOrder;
    var w := Run(start, fromEnd, steps);
    var s := Segments(w)[i];
    assert Within(w.gens, s);
    assert w.gens[s.gen][s.from..] == Slice(w.gens, s) + w.gens[s.gen][s.to..];
    CompleteGrows(Slice(w.gens, s), w.gens[s.gen][s.to..]);
  }

  /** What replaces a followed file is read from its first byte: after a rotation to a fresh inode, and after a
      truncation to less than was read, the next scan can run and adds the complete lines of the whole new
      content, whatever grew meanwhile. */
  lemma ReplacementsAreReadInFull(w: World, fromEnd: bool, inode: nat, bytes: Bytes, late: Bytes)
    requires Inv(w) && w.cursor.Some? && bytes != []
    ensures inode !in w.inodes ==>
              && Enabled(w, Rotate(inode, bytes))
              && var r := Apply(w, fromEnd, Rotate(inode, bytes));
                 Enabled(r, Scan(late)) && Apply(r, fromEnd, Scan(late)).out == w.out + Complete(bytes + late)
    ensures |bytes| < w.cursor.value.offset ==>
              && Enabled(w, Truncate(bytes))
              && var r := Apply(w, fromEnd, Truncate(bytes));
                 Enabled(r, Scan(late)) && Apply(r, fromEnd, Scan(late)).out == w.out + Complete(bytes + late)
  {
    hide Complete, Remainder, Reference, Slice;
    var all := bytes + late;
    assert all[0..] == all && [] + all == all;
    assert (w.gens + [bytes])[|w.gens|] == bytes;
  }

  // ----- a file that only grows ------------------------------------------

  predicate OnlyGrows(step: Step) {
    step.Append? || step.Scan? || step.MissedScan?
  }

  ghost predicate OneGeneration(w: World, fromEnd: bool) {
    && |w.gens| == |w.inodes| == 1
    && (w.reading.Some? ==>
          && w.reading.value.done == [] && w.reading.value.last.gen == 0
          && (!fromEnd ==> w.reading.value.last.from == 0))
  }

  /** While a file only grows no truncation can be missed: every scan is covered. */
  lemma GrowingIsDetectable(w: World, fromEnd: bool)
    requires Inv(w) && OneGeneration(w, fromEnd)
    ensures Detectable(w)
  {
  }

  /** So every schedule of appends and scans can run, and stays in its one generation. */
  lemma {:induction false} GrowingRuns(w: World, fromEnd: bool, steps: seq<Step>)
    requires Inv(w) && OneGeneration(w, fromEnd)
    requires forall i :: 0 <= i < |steps| ==> OnlyGrows(steps[i])
    ensures ValidRun(w, fromEnd, steps) && OneGeneration(Run(w, fromEnd, steps), fromEnd)
    decreases |steps|
  {
    if steps != [] {
      assert OnlyGrows(steps[0]);
      GrowingIsDetectable(w, fromEnd);
      StepKeepsInv(w, fromEnd, steps[0]);
      assert OneGeneration(Apply(w, fromEnd, steps[0]), fromEnd);
      GrowingRuns(Apply(w, fromEnd, steps[0]), fromEnd, steps[1..]);
    }
  }

  /** An append-only file under any schedule of appends and scans, every one of which can run: all lines
      produced, and the partial line kept, are the one-shot split of the bytes between the start offset and
      the cursor. */
  lemma AppendOnlyIsOneSplit(start: World, fromEnd: bool, steps: seq<Step>)
    requires Init(start) && forall i :: 0 <= i < |steps| ==> OnlyGrows(steps[i])
    ensures ValidRun(start, fromEnd, steps)
    ensures var w := Run(start, fromEnd, steps);
            && |w.gens| == 1
            && (w.cursor.None? ==> w.out == [])
            && (w.cursor.Some? ==>
                  && w.reading.Some?
                  && var from := w.reading.value.last.from;
                     && (!fromEnd ==> from == 0)
                     && from <= w.cursor.value.offset <= |w.gens[0]|
                     && w.out == Complete(w.gens[0][from..w.cursor.value.offset])
                     && w.cursor.value.buffer == Remainder(w.gens[0][from..w.cursor.value.offset])
                     && Unlines(w.out) + w.cursor.value.buffer == w.gens[0][from..w.cursor.value.offset])
  {
    GrowingRuns(start, fromEnd, steps);
    RunKeepsInv(start, fromEnd, steps);
    var w := Run(start, fromEnd, steps);
    if w.reading.Some? {
      var slice := Slice(w.gens, w.reading.value.last);
      assert Reference(w.gens, []) + Complete(slice) == Complete(slice);
      SplitSpells(slice);
    }
  }

  // ----- when a restart is noticed ---------------------------------------

  function FromTheTop(inode: nat, size: nat, content: Bytes): (Option<Cursor>, seq<Bytes>) {
    var c := Some(Cursor(inode, 0, []));
    (VisitCursor(c, false, Seen(inode, size, content)), VisitLines(c, false, Seen(inode, size, content)))
  }

  /** What every cursor of the reader satisfies. */
  predicate Plausible(c: Cursor) {
    NEWLINE !in c.buffer && |c.buffer| <= c.offset
  }

  /** A scan by a cursor yields what a fresh reader of the file would. */
  predicate ReadsAsNew(c: Cursor, inode: nat, size: nat, content: Bytes) {
    (VisitCursor(Some(c), false, Seen(inode, size, content)), VisitLines(Some(c), false, Seen(inode, size, content)))
    == FromTheTop(inode, size, content)
  }

  /** The exact condition under which a scan treats the file as new, whatever the file holds: another
      inode, a size below the offset, or a cursor that stood at the top anyway. Every other way of
      replacing a file goes unnoticed for some content. */
  lemma RestartsExactlyWhen(c: Cursor, inode: nat, size: nat)
    requires Plausible(c)
    ensures (forall content: Bytes :: |content| >= size ==> ReadsAsNew(c, inode, size, content))
            <==> c.inode != inode || size < c.offset || c.offset == 0
  {
    if c.inode == inode && size >= c.offset && c.offset > 0 {
      var content: Bytes := seq(size, _ => NEWLINE);
      StaleReadDiffers(c, inode, content);
      assert !ReadsAsNew(c, inode, size, content);
    }
  }

  /** A stale cursor over a block of newlines returns fewer lines than the block has. */
  lemma StaleReadDiffers(c: Cursor, inode: nat, content: Bytes)
    requires Plausible(c) && c.inode == inode && |content| >= c.offset > 0
    requires forall i :: 0 <= i < |content| ==> content[i] == NEWLINE
    ensures |VisitLines(Some(c), false, Seen(inode, |content|, content))| < |FromTheTop(inode, |content|, content).1|
  {
    hide Complete, Remainder;
    var stale := Seen(inode, |content|, content);
    SplitNewlines(content);
    assert [] + content == content;
    assert FromTheTop(inode, |content|, content).1 == Complete(content);
    if |content| > c.offset {
      StaleLines(c, content[c.offset..]);
      assert VisitLines(Some(c), false, stale) == Complete(c.buffer + content[c.offset..]);
    }
  }

  /** A partial line before a block of newlines adds no line. */
  lemma StaleLines(c: Cursor, chunk: Bytes)
    requires Plausible(c) && chunk != [] && forall i :: 0 <= i < |chunk| ==> chunk[i] == NEWLINE
    ensures |Complete(c.buffer + chunk)| == |chunk|
  {
    hide Complete, Remainder;
    LineIsRemainder(c.buffer);
    SplitBeforeNewlines(c.buffer, chunk);
  }

  lemma {:induction false} SplitBeforeNewlines(line: Bytes, block: Bytes)
    requires block != [] && forall i :: 0 <= i < |block| ==> block[i] == NEWLINE
    ensures Complete(line + block) == Complete(line) + [Remainder(line)] + Complete(block)[1..]
    ensures |Complete(block)| == |block|
  {
    assert Complete([]) == [] && Remainder([]) == [];
    hide Complete, Remainder;
    var rest := block[1..];
    assert block == [NEWLINE] + rest;
    SplitSnoc(line, NEWLINE);
    SplitCarries(line + [NEWLINE], rest);
    assert line + block == line + [NEWLINE] + rest;
    SplitSnoc([], NEWLINE);
    SplitCarries([NEWLINE], rest);
    assert [] + [NEWLINE] == [NEWLINE];
    assert [] + rest == rest;
    SplitNewlines(block);
  }

  /** A truncation that is refilled to the cursor before the next scan joins two generations: "ab" was read,
      "xyc\n" is written over it, and the next line is "abc", which no generation contains. */
  lemma RefilledTruncationJoins()
    ensures VisitLines(Some(Cursor(7, 2, [97, 98])), false, Seen(7, 4, [120, 121, 99, NEWLINE])) == [[97, 98, 99]]
  {
    var data: Bytes := [97, 98, 99, NEWLINE];
    assert data[..3] == [97, 98, 99] && data[..3][..2] == [97, 98] && data[..3][..2][..1] == [97];
    assert Remainder([97]) == [97];
    LineIsRemainder([97, 98, 99]);
    SplitSnoc([97, 98, 99], NEWLINE);
    assert [97, 98, 99] + [NEWLINE] == data;
    assert [97, 98] + [120, 121, 99, NEWLINE][2..] == data;
  }

  lemma NoLinesMeans(data: Bytes)
    ensures Complete(data) == [] <==> NEWLINE !in data
  {
    SplitSpells(data);
    if Complete(data) == [] {
      assert Unlines([]) + Remainder(data) == Remainder(data);
    }
    if NEWLINE !in data {
      LineIsRemainder(data);
    }
  }

  /** The scan opens the path, not the inode that `stat` reported. When the file is rotated in between, the
      old cursor is applied to the new file, and the next scan, which sees the new inode, reads that file
      again from its top. The two scans together give exactly the new file's lines if and only if what the
      first one read holds no newline; otherwise they give lines twice, the first joined to old bytes. */
  lemma RotationBeforeOpen(c: Cursor, size: nat, content: Bytes, inode: nat, grown: Bytes)
    requires Plausible(c) && c.inode != inode && size > c.offset
    ensures var raced, next := Seen(c.inode, size, content), Seen(inode, |content + grown|, content + grown);
            var first := VisitLines(Some(c), false, raced);
            var second := VisitLines(VisitCursor(Some(c), false, raced), false, next);
            && first == Complete(c.buffer + Chunk(c, content))
            && second == Complete(content + grown)
            && (first + second == Complete(content + grown) <==> NEWLINE !in Chunk(c, content))
  {
    assert Complete([]) == [];
    hide Complete, Remainder;
    var data := c.buffer + Chunk(c, content);
    assert [] + (content + grown) == content + grown;
    assert content + grown == [] ==> Complete(content + grown) == [];
    NoLinesMeans(data);
    assert NEWLINE in data <==> NEWLINE in Chunk(c, content);
    if Complete(data) == [] {
      assert [] + Complete(content + grown) == Complete(content + grown);
    } else {
      assert |Complete(data) + Complete(content + grown)| > |Complete(content + grown)|;
    }
  }
}
