/** The structural parser of `parser.py`: sections, and the blocks cut out of them. */
module Parser {
  import opened Text
  import opened Blocks

  // The section spans are those of `bin/cast-spec-checker`.  Lines are numbered from 1.  The heading, story, row
  // and bullet tests are given by a grammar.

  /** What the compiled patterns answer for a line: the name of a section it opens, the ref of a story or row it
      starts, whether it starts a top-level bullet. */
  datatype Grammar = Grammar(
    sectionName: string -> Option<string>,
    storyRef: string -> Option<string>,
    rowRef: (BlockKind, string) -> Option<string>,
    topBullet: string -> bool)

  datatype Section = Section(name: string, first: nat, last: nat)

  // ----- sections -----

  /** Line `n` opens a section. */
  predicate Opens(g: Grammar, lines: seq<string>, n: nat) {
    1 <= n <= |lines| && g.sectionName(lines[n - 1]).Some?
  }

  predicate OpensNamed(g: Grammar, lines: seq<string>, n: nat, name: string) {
    1 <= n <= |lines| && g.sectionName(lines[n - 1]) == Some(name)
  }

  /** A section: it runs from its heading to the line before the next heading, whatever that is, or to the end. */
  ghost predicate IsSection(g: Grammar, lines: seq<string>, s: Section) {
    && OpensNamed(g, lines, s.first, s.name) && s.first <= s.last <= |lines|
    && (forall n :: s.first < n <= s.last ==> !Opens(g, lines, n))
    && (s.last < |lines| ==> Opens(g, lines, s.last + 1))
  }

  /** The spans kept: every name once, with its last occurrence. */
  ghost predicate AreSpans(g: Grammar, lines: seq<string>, spans: map<string, Section>) {
    && (forall n: nat, name :: OpensNamed(g, lines, n, name) ==> name in spans && n <= spans[name].first)
    && forall name :: name in spans ==> spans[name].name == name && IsSection(g, lines, spans[name])
  }

  /** The spans of the sections closed before line `n`, with the open one from `current` on. */
  ghost predicate SpansSoFar(g: Grammar, lines: seq<string>, spans: map<string, Section>, current: Option<Section>,
                             n: nat) {
    && n <= |lines|
    && (current.None? ==> spans == map[] && forall k :: 1 <= k <= n ==> !Opens(g, lines, k))
    && (current.Some? ==>
          && OpensNamed(g, lines, current.value.first, current.value.name) && current.value.first <= n
          && forall k :: current.value.first < k <= n ==> !Opens(g, lines, k))
    && (forall k: nat, name :: k <= n && OpensNamed(g, lines, k, name) ==>
          (current.Some? && k == current.value.first) || (name in spans && k <= spans[name].first))
    && forall name :: name in spans ==>
         && spans[name].name == name && IsSection(g, lines, spans[name])
         && current.Some? && spans[name].first < current.value.first
  }

  method SectionSpans(g: Grammar, lines: seq<string>) returns (spans: map<string, Section>)
    ensures AreSpans(g, lines, spans)
  {
    hide SpansSoFar, AreSpans;
    spans := map[];
    var current: Option<Section> := None;
    NothingYet(g, lines);
    for i := 0 to |lines|
      invariant SpansSoFar(g, lines, spans, current, i)
    {
      var name := g.sectionName(lines[i]);
      if name.None? {
        NoHeading(g, lines, spans, current, i);
        continue;
      }
      NextHeading(g, lines, spans, current, i, name.value);
      if current.Some? {
        spans := spans[current.value.name := current.value.(last := i)];
      }
      current := Some(Section(name.value, i + 1, i + 1));
    }
    AtEnd(g, lines, spans, current);
    if current.Some? {
      spans := spans[current.value.name := current.value.(last := |lines|)];
    }
  }

  function Closed(spans: map<string, Section>, current: Option<Section>, last: nat): map<string, Section> {
    if current.Some? then spans[current.value.name := current.value.(last := last)] else spans
  }

  lemma {:induction false} NothingYet(g: Grammar, lines: seq<string>)
    ensures SpansSoFar(g, lines, map[], None, 0)
  {
  }

  lemma {:induction false} NoHeading(g: Grammar, lines: seq<string>, spans: map<string, Section>,
                                     current: Option<Section>, i: nat)
    requires i < |lines| && SpansSoFar(g, lines, spans, current, i) && g.sectionName(lines[i]).None?
    ensures SpansSoFar(g, lines, spans, current, i + 1)
  {
    hide IsSection;
  }

  lemma {:induction false} ClosedIsSection(g: Grammar, lines: seq<string>, spans: map<string, Section>,
                                           current: Option<Section>, i: nat)
    requires SpansSoFar(g, lines, spans, current, i) && current.Some?
    requires i < |lines| ==> Opens(g, lines, i + 1)
    ensures IsSection(g, lines, current.value.(last := i))
  {
  }

  lemma {:induction false} NextHeading(g: Grammar, lines: seq<string>, spans: map<string, Section>,
                                       current: Option<Section>, i: nat, name: string)
    requires i < |lines| && SpansSoFar(g, lines, spans, current, i) && g.sectionName(lines[i]) == Some(name)
    ensures SpansSoFar(g, lines, Closed(spans, current, i), Some(Section(name, i + 1, i + 1)), i + 1)
  {
    hide IsSection;
    if current.Some? { ClosedIsSection(g, lines, spans, current, i); }
  }

  lemma {:induction false} AtEnd(g: Grammar, lines: seq<string>, spans: map<string, Section>, current: Option<Section>)
    requires SpansSoFar(g, lines, spans, current, |lines|)
    ensures AreSpans(g, lines, Closed(spans, current, |lines|))
  {
    if current.Some? { ClosedIsSection(g, lines, spans, current, |lines|); }
    hide IsSection;
  }

  /** Two different sections do not overlap. */
  lemma {:induction false} SectionsAreDisjoint(g: Grammar, lines: seq<string>, a: Section, b: Section)
    requires IsSection(g, lines, a) && IsSection(g, lines, b) && a.first < b.first
    ensures a.last < b.first
  {
    assert Opens(g, lines, b.first);
  }

  // ----- cutting blocks -----

  predicate Filled(lines: seq<string>, n: nat) {
    1 <= n <= |lines| && !Blank(lines[n - 1])
  }

  /** The last non-blank line of `first..last`, or `first`. */
  function TrimTo(lines: seq<string>, first: nat, last: nat): (r: nat)
    requires 1 <= first && last <= |lines|
    ensures first <= last ==> first <= r <= last
    ensures forall n: nat :: first < n <= last && Filled(lines, n) ==> n <= r
    ensures r > first ==> Filled(lines, r)
    decreases last
  {
    if last <= first then first
    else if Filled(lines, last) then last
    else TrimTo(lines, first, last - 1)
  }

  method TrimTrailingBlank(lines: seq<string>, first: nat, last: nat) returns (r: nat)
    requires 1 <= first <= last <= |lines|
    ensures r == TrimTo(lines, first, last)
  {
    r := first;
    for n := first to last + 1
      invariant r == TrimTo(lines, first, if n == first then first else n - 1)
    {
      BlankIffStripsToNothing(lines[n - 1]);
      if Strip(lines[n - 1]) != "" {
        r := n;
      }
    }
  }

  /** The source text of lines `first..last`. */
  function SliceBody(lines: seq<string>, first: nat, last: nat): string
    requires 1 <= first <= last <= |lines|
  {
    Join(lines[first - 1..last])
  }

  /** The lines after `first` and up to `n` that start a block. */
  function MarkersUpTo(isMarker: string -> bool, lines: seq<string>, first: nat, n: nat): seq<nat>
    requires n <= |lines|
  {
    if n <= first || n == 0 then []
    else MarkersUpTo(isMarker, lines, first, n - 1) + if isMarker(lines[n - 1]) then [n] else []
  }

  lemma {:induction false} MarkersAre(isMarker: string -> bool, lines: seq<string>, first: nat, n: nat)
    requires n <= |lines|
    ensures forall k: nat :: k in MarkersUpTo(isMarker, lines, first, n) <==> first < k <= n && isMarker(lines[k - 1])
    ensures Rising(MarkersUpTo(isMarker, lines, first, n), first, n)
  {
    if n > first && n > 0 { MarkersAre(isMarker, lines, first, n - 1); }
  }

  ghost predicate Rising(ms: seq<nat>, first: nat, n: nat) {
    && (forall i :: 0 <= i < |ms| ==> first < ms[i] <= n)
    && forall i, j :: 0 <= i < j < |ms| ==> ms[i] < ms[j]
  }

  /** The line before the next marker, or the end of the section. */
  function RegionEnd(ms: seq<nat>, i: nat, last: nat): int
    requires i < |ms|
  {
    if i + 1 < |ms| then ms[i + 1] - 1 else last
  }

  function BlockAt(g: Grammar, kind: BlockKind, lines: seq<string>, ms: seq<nat>, i: nat, last: nat): Block
    requires i < |ms| && Rising(ms, 0, last) && last <= |lines|
  {
    var first := ms[i];
    var end := TrimTo(lines, first, RegionEnd(ms, i, last));
    var story := kind == UserStory;
    Block(kind, 2, SliceBody(lines, first, end),
          if story then Some(HeadingText(lines[first - 1])) else None,
          if story then g.storyRef(lines[first - 1]) else None, first, end)
  }

  predicate IsHash(c: char) { c == '#' }

  function HeadingText(line: string): string {
    Strip(TrimLeft(line, IsHash))
  }

  /** One block per marker. */
  function BlocksUpTo(g: Grammar, kind: BlockKind, lines: seq<string>, ms: seq<nat>, last: nat,
                      n: nat): (bs: seq<Block>)
    requires Rising(ms, 0, last) && last <= |lines| && n <= |ms|
    ensures |bs| == n
  {
    if n == 0 then [] else BlocksUpTo(g, kind, lines, ms, last, n - 1) + [BlockAt(g, kind, lines, ms, n - 1, last)]
  }

  lemma {:induction false} BlocksAre(g: Grammar, kind: BlockKind, lines: seq<string>, ms: seq<nat>, last: nat, n: nat,
                                     i: nat)
    requires Rising(ms, 0, last) && last <= |lines| && i < n <= |ms|
    ensures BlocksUpTo(g, kind, lines, ms, last, n)[i] == BlockAt(g, kind, lines, ms, i, last)
  {
    hide Rising, BlockAt;
    if i < n - 1 { BlocksAre(g, kind, lines, ms, last, n - 1, i); }
  }

  predicate IsMarker(g: Grammar, kind: BlockKind, line: string) {
    if kind == UserStory then g.storyRef(line).Some? else g.topBullet(line)
  }

  function MarkersOf(g: Grammar, kind: BlockKind, lines: seq<string>, first: nat, last: nat): (ms: seq<nat>)
    requires last <= |lines|
    ensures Rising(ms, first, last) && Rising(ms, 0, last)
  {
    MarkersAre(line => IsMarker(g, kind, line), lines, first, last);
    MarkersUpTo(line => IsMarker(g, kind, line), lines, first, last)
  }

  /** The blocks of a bullet or story section. */
  function CutBlocks(g: Grammar, kind: BlockKind, lines: seq<string>, s: Section): seq<Block>
    requires s.last <= |lines|
  {
    var ms := MarkersOf(g, kind, lines, s.first, s.last);
    BlocksUpTo(g, kind, lines, ms, s.last, |ms|)
  }

  /** One block per marked line, up to the next one or the end of the section, trailing blank lines left out. */
  method EmitBlocks(g: Grammar, kind: BlockKind, lines: seq<string>, s: Section) returns (blocks: seq<Block>)
    requires 1 <= s.first && s.last <= |lines|
    ensures blocks == CutBlocks(g, kind, lines, s)
  {
    hide IsMarker, BlockAt, MarkersUpTo;
    var ms := CollectMarkers(line => IsMarker(g, kind, line), lines, s.first, s.last);
    assert ms == MarkersOf(g, kind, lines, s.first, s.last);
    blocks := [];
    for i := 0 to |ms|
      invariant blocks == BlocksUpTo(g, kind, lines, ms, s.last, i)
    {
      var block := EmitBlock(g, kind, lines, ms, i, s.last);
      blocks := blocks + [block];
    }
  }

  method EmitBlock(g: Grammar, kind: BlockKind, lines: seq<string>, ms: seq<nat>, i: nat, last: nat) returns (b: Block)
    requires i < |ms| && Rising(ms, 0, last) && last <= |lines|
    ensures b == BlockAt(g, kind, lines, ms, i, last)
  {
    var first := ms[i];
    var end := TrimTrailingBlank(lines, first, RegionEnd(ms, i, last));
    var story := kind == UserStory;
    b := Block(kind, 2, SliceBody(lines, first, end),
               if story then Some(HeadingText(lines[first - 1])) else None,
               if story then g.storyRef(lines[first - 1]) else None, first, end);
  }

  method CollectMarkers(isMarker: string -> bool, lines: seq<string>, first: nat, last: nat) returns (ms: seq<nat>)
    requires last <= |lines|
    ensures ms == MarkersUpTo(isMarker, lines, first, last)
  {
    ms := [];
    var n := first + 1;
    while n <= last
      invariant first < n && (n <= last + 1 || last <= first)
      invariant ms == MarkersUpTo(isMarker, lines, first, if n - 1 <= last then n - 1 else last)
    {
      if isMarker(lines[n - 1]) {
        ms := ms + [n];
      }
      n := n + 1;
    }
  }

  // ----- what the blocks are like -----

  /** Blocks lie in the section, in order, without overlap, and each body is its source slice. */
  ghost predicate WellPlaced(lines: seq<string>, bs: seq<Block>, first: nat, last: nat) {
    && (forall i :: 0 <= i < |bs| ==> 1 <= first <= bs[i].first <= bs[i].last <= last <= |lines|)
    && (forall i :: 0 <= i < |bs| ==> bs[i].body == SliceBody(lines, bs[i].first, bs[i].last))
    && forall i, j :: 0 <= i < j < |bs| ==> bs[i].last < bs[j].first
  }

  lemma {:induction false} BlockFits(g: Grammar, kind: BlockKind, lines: seq<string>, ms: seq<nat>, first: nat,
                                     last: nat, i: nat)
    requires Rising(ms, first, last) && Rising(ms, 0, last) && last <= |lines| && i < |ms|
    ensures var b := BlockAt(g, kind, lines, ms, i, last);
      && first < b.first == ms[i] <= b.last <= RegionEnd(ms, i, last) <= last
      && b.body == SliceBody(lines, b.first, b.last)
      && (forall n: nat :: b.first < n <= RegionEnd(ms, i, last) && Filled(lines, n) ==> n <= b.last)
  {
    hide Blank;
  }

  lemma {:induction false} CutBlocksArePlaced(g: Grammar, kind: BlockKind, lines: seq<string>, s: Section)
    requires 1 <= s.first && s.last <= |lines|
    ensures WellPlaced(lines, CutBlocks(g, kind, lines, s), s.first, s.last)
  {
    hide BlockAt, BlocksUpTo, MarkersUpTo, SliceBody;
    var ms := MarkersOf(g, kind, lines, s.first, s.last);
    var bs := CutBlocks(g, kind, lines, s);
    forall i | 0 <= i < |bs|
      ensures s.first < bs[i].first == ms[i] <= bs[i].last <= RegionEnd(ms, i, s.last) <= s.last
      ensures bs[i].body == SliceBody(lines, bs[i].first, bs[i].last)
    {
      BlocksAre(g, kind, lines, ms, s.last, |ms|, i);
      BlockFits(g, kind, lines, ms, s.first, s.last, i);
    }
    forall i, j | 0 <= i < j < |bs| ensures bs[i].last < bs[j].first {
      RegionsApart(ms, s.first, s.last, i, j);
    }
  }

  lemma {:induction false} RegionsApart(ms: seq<nat>, first: nat, last: nat, i: nat, j: nat)
    requires Rising(ms, first, last) && i < j < |ms|
    ensures RegionEnd(ms, i, last) < ms[j]
  {
    assert i + 1 == j || ms[i + 1] < ms[j];
  }

  /** The last marker at or before a line. */
  lemma {:induction false} MarkerBefore(ms: seq<nat>, first: nat, last: nat, n: nat) returns (i: nat)
    requires Rising(ms, first, last) && ms != [] && ms[0] <= n <= last
    ensures i < |ms| && ms[i] <= n <= RegionEnd(ms, i, last)
  {
    i := 0;
    while i + 1 < |ms| && ms[i + 1] <= n
      invariant 0 <= i < |ms| && ms[i] <= n
    {
      i := i + 1;
    }
  }

  predicate Holds(b: Block, n: nat) {
    b.first <= n <= b.last
  }

  /** From the first marker to the end of the section every non-blank line is in exactly one block. */
  lemma {:induction false} EveryLineInOneBlock(g: Grammar, kind: BlockKind, lines: seq<string>, s: Section, n: nat)
    requires 1 <= s.first && s.last <= |lines|
    requires var ms := MarkersOf(g, kind, lines, s.first, s.last); ms != [] && ms[0] <= n <= s.last && Filled(lines, n)
    ensures var bs := CutBlocks(g, kind, lines, s);
      exists i :: 0 <= i < |bs| && Holds(bs[i], n) && forall j :: 0 <= j < |bs| && Holds(bs[j], n) ==> j == i
  {
    hide BlockAt, BlocksUpTo, MarkersUpTo, Filled;
    var ms := MarkersOf(g, kind, lines, s.first, s.last);
    var bs := CutBlocks(g, kind, lines, s);
    var i := MarkerBefore(ms, s.first, s.last, n);
    BlocksAre(g, kind, lines, ms, s.last, |ms|, i);
    BlockFits(g, kind, lines, ms, s.first, s.last, i);
    assert Holds(bs[i], n);
    CutBlocksArePlaced(g, kind, lines, s);
    OnlyOneHolds(lines, bs, s.first, s.last, n, i);
  }

  lemma {:induction false} OnlyOneHolds(lines: seq<string>, bs: seq<Block>, first: nat, last: nat, n: nat, i: nat)
    requires WellPlaced(lines, bs, first, last) && i < |bs| && Holds(bs[i], n)
    ensures forall j :: 0 <= j < |bs| && Holds(bs[j], n) ==> j == i
  {
    forall j | 0 <= j < |bs| && Holds(bs[j], n) ensures j == i {
    }
  }

  // ----- which blocks a section gives -----

  /** Line `end` is the last of `first..last` that is not blank, or `first`. */
  ghost predicate EndsAt(lines: seq<string>, first: nat, last: nat, end: nat) {
    && 1 <= first <= end <= last <= |lines| && (end == first || !Blank(lines[end - 1]))
    && forall n :: end <= n < last ==> Blank(lines[n])
  }

  /** Line `n` starts a story, or for other kinds a top-level bullet. */
  ghost predicate StartsBlock(g: Grammar, kind: BlockKind, lines: seq<string>, n: nat) {
    1 <= n <= |lines| && if kind == UserStory then g.storyRef(lines[n - 1]).Some? else g.topBullet(lines[n - 1])
  }

  /** The text is what follows the hashes at the start of the line, without white space around it. */
  ghost predicate IsHeadingText(line: string, text: string) {
    exists n: nat :: n <= |line| && (forall k :: 0 <= k < n ==> line[k] == '#') && (n < |line| ==> line[n] != '#')
                     && Surrounds(line[n..], text)
  }

  lemma {:induction false} HeadingTextIs(line: string, text: string)
    ensures IsHeadingText(line, text) <==> text == HeadingText(line)
  {
    var rest := TrimLeft(line, IsHash);
    var n := |line| - |rest|;
    TrimLeftCuts(line, IsHash);
    StripIs(rest, text);
    assert rest != "" ==> rest[0] == line[n];
    if m: nat :| m <= |line| && (forall k :: 0 <= k < m ==> line[k] == '#') && (m < |line| ==> line[m] != '#')
                 && Surrounds(line[m..], text) {
      assert m == n;
    }
  }

  /** The stretch of the section from one such line to before the next one, or to the end. */
  ghost predicate IsStretch(g: Grammar, kind: BlockKind, lines: seq<string>, s: Section, first: nat, end: nat) {
    && s.first < first <= end <= s.last && StartsBlock(g, kind, lines, first)
    && (forall n: nat :: first < n <= end ==> !StartsBlock(g, kind, lines, n))
    && (end == s.last || StartsBlock(g, kind, lines, end + 1))
  }

  /** A story or bullet of the section: its stretch without the blank lines at the end; a story has its heading and its
      reference. */
  ghost predicate IsCutOf(g: Grammar, kind: BlockKind, lines: seq<string>, s: Section, b: Block) {
    && b.kind == kind && b.level == 2 && 1 <= b.first <= b.last <= |lines|
    && (exists end: nat :: IsStretch(g, kind, lines, s, b.first, end) && EndsAt(lines, b.first, end, b.last))
    && b.body == Join(lines[b.first - 1..b.last])
    && (kind == UserStory ==> b.ref == g.storyRef(lines[b.first - 1]))
    && (kind == UserStory ==> b.heading.Some? && IsHeadingText(lines[b.first - 1], b.heading.value))
    && (kind != UserStory ==> b.ref == None && b.heading == None)
  }

  /** A table row of the section: one line, with its reference. */
  ghost predicate IsRowOf(g: Grammar, kind: BlockKind, prefix: string, lines: seq<string>, s: Section, b: Block) {
    && s.first < b.first <= s.last && 1 <= b.first <= |lines|
    && g.rowRef(kind, lines[b.first - 1]).Some?
    && b == Block(kind, 2, lines[b.first - 1], None, Some(prefix + g.rowRef(kind, lines[b.first - 1]).value),
                  b.first, b.first)
  }

  /** The section as a whole without the blank lines at the end. */
  ghost predicate IsWholeOf(kind: BlockKind, lines: seq<string>, s: Section, b: Block) {
    && b.kind == kind && b.level == 1 && b.heading == Some(s.name) && b.ref == None
    && b.first == s.first && 1 <= b.first <= b.last <= |lines| && EndsAt(lines, s.first, s.last, b.last)
    && b.body == Join(lines[b.first - 1..b.last])
  }

  /** The block is one that its section gives, by the section's name. */
  ghost predicate IsBlockOf(g: Grammar, lines: seq<string>, s: Section, b: Block) {
    || (s.name == "Intent" && IsWholeOf(Intent, lines, s, b))
    || (s.name == "User Stories" && IsCutOf(g, UserStory, lines, s, b))
    || (s.name == "Functional Requirements" && IsRowOf(g, FunctionalRequirement, "FR-", lines, s, b))
    || (s.name == "Success Criteria" && IsRowOf(g, SuccessCriterion, "SC-", lines, s, b))
    || (s.name == "Evidence" && IsWholeOf(Evidence, lines, s, b))
    || (s.name == "Decisions" && IsWholeOf(Decision, lines, s, b))
    || (s.name == "Constraints" && IsCutOf(g, Constraint, lines, s, b))
    || (s.name == "Out of Scope" && IsCutOf(g, Scope, lines, s, b))
    || ("Directional" <= s.name && IsWholeOf(Directional, lines, s, b))
    || (s.name == "Open Questions" && IsCutOf(g, OpenQuestion, lines, s, b))
  }

  ghost predicate IsKnown(name: string) {
    || name in {"Intent", "User Stories", "Functional Requirements", "Success Criteria", "Evidence", "Decisions",
                "Constraints", "Out of Scope", "Open Questions"}
    || "Directional" <= name
  }

  lemma {:induction false} TrimToEnds(lines: seq<string>, first: nat, last: nat, end: nat)
    requires 1 <= first <= last <= |lines|
    ensures EndsAt(lines, first, last, end) <==> end == TrimTo(lines, first, last)
  {
    hide Blank;
    var r := TrimTo(lines, first, last);
    forall n: nat | r <= n < last ensures Blank(lines[n]) { assert !Filled(lines, n + 1); }
    if r > first { assert !Blank(lines[r - 1]); }
  }

  /** The `i`-th marker and the end of its region are a stretch of the section. */
  lemma {:induction false} MarkerStretch(g: Grammar, kind: BlockKind, lines: seq<string>, s: Section, i: nat)
    requires 1 <= s.first && s.last <= |lines| && i < |MarkersOf(g, kind, lines, s.first, s.last)|
    ensures var ms := MarkersOf(g, kind, lines, s.first, s.last);
      var end := RegionEnd(ms, i, s.last);
      end >= 0 && IsStretch(g, kind, lines, s, ms[i], end)
  {
    hide MarkersUpTo;
    var ms := MarkersOf(g, kind, lines, s.first, s.last);
    var end := RegionEnd(ms, i, s.last);
    MarkersAre(line => IsMarker(g, kind, line), lines, s.first, s.last);
    assert ms[i] in ms;
    if i + 1 < |ms| { assert ms[i + 1] in ms; }
    forall n: nat | ms[i] < n <= end ensures !StartsBlock(g, kind, lines, n) {
      if n in ms {
        var j :| 0 <= j < |ms| && ms[j] == n;
        BetweenMarkers(ms, s.first, s.last, i, j);
      }
    }
  }

  lemma {:induction false} BetweenMarkers(ms: seq<nat>, first: nat, last: nat, i: nat, j: nat)
    requires Rising(ms, first, last) && i < |ms| && j < |ms|
    ensures !(ms[i] < ms[j] <= RegionEnd(ms, i, last))
  {
    if j <= i { assert j == i || ms[j] < ms[i]; } else if i + 1 < j { assert ms[i + 1] < ms[j]; }
  }

  lemma {:induction false} OneStretch(g: Grammar, kind: BlockKind, lines: seq<string>, s: Section, first: nat, x: nat,
                                      y: nat)
    requires IsStretch(g, kind, lines, s, first, x) && IsStretch(g, kind, lines, s, first, y)
    ensures x == y
  {
    hide StartsBlock;
  }

  lemma {:induction false} BlockAtIsCut(g: Grammar, kind: BlockKind, lines: seq<string>, s: Section, i: nat, b: Block)
    requires 1 <= s.first && s.last <= |lines| && i < |MarkersOf(g, kind, lines, s.first, s.last)|
    requires b.first == MarkersOf(g, kind, lines, s.first, s.last)[i]
    ensures b == BlockAt(g, kind, lines, MarkersOf(g, kind, lines, s.first, s.last), i, s.last)
      <==> IsCutOf(g, kind, lines, s, b)
  {
    hide MarkersOf, EndsAt, IsStretch, Blank, HeadingText, IsHeadingText, TrimTo;
    if b.heading.Some? { HeadingTextIs(lines[b.first - 1], b.heading.value); }
    var ms := MarkersOf(g, kind, lines, s.first, s.last);
    var end := RegionEnd(ms, i, s.last);
    MarkerStretch(g, kind, lines, s, i);
    StretchFits(g, kind, lines, s, b.first, end);
    TrimToEnds(lines, b.first, end, b.last);
    forall x: nat | IsStretch(g, kind, lines, s, b.first, x) ensures x == end {
      OneStretch(g, kind, lines, s, b.first, x, end);
    }
  }

  lemma {:induction false} StretchFits(g: Grammar, kind: BlockKind, lines: seq<string>, s: Section, first: nat,
                                       end: nat)
    requires IsStretch(g, kind, lines, s, first, end)
    ensures s.first < first <= end <= s.last
  {
  }

  lemma {:induction false} CutBlocksAre(g: Grammar, kind: BlockKind, lines: seq<string>, s: Section, b: Block)
    requires 1 <= s.first && s.last <= |lines|
    ensures b in CutBlocks(g, kind, lines, s) <==> IsCutOf(g, kind, lines, s, b)
  {
    hide BlockAt, BlocksUpTo, IsCutOf;
    var ms, bs := MarkersOf(g, kind, lines, s.first, s.last), CutBlocks(g, kind, lines, s);
    if b in bs {
      var i :| 0 <= i < |bs| && bs[i] == b;
      BlocksAre(g, kind, lines, ms, s.last, |ms|, i);
      BlockFits(g, kind, lines, ms, s.first, s.last, i);
      BlockAtIsCut(g, kind, lines, s, i, b);
    }
    if IsCutOf(g, kind, lines, s, b) {
      var i := MarkerOfCut(g, kind, lines, s, b);
      BlockAtIsCut(g, kind, lines, s, i, b);
      BlocksAre(g, kind, lines, ms, s.last, |ms|, i);
    }
  }

  lemma {:induction false} MarkerOfCut(g: Grammar, kind: BlockKind, lines: seq<string>, s: Section, b: Block)
    returns (i: nat)
    requires 1 <= s.first && s.last <= |lines| && IsCutOf(g, kind, lines, s, b)
    ensures i < |MarkersOf(g, kind, lines, s.first, s.last)| && MarkersOf(g, kind, lines, s.first, s.last)[i] == b.first
  {
    hide MarkersUpTo;
    MarkersAre(line => IsMarker(g, kind, line), lines, s.first, s.last);
    assert b.first in MarkersOf(g, kind, lines, s.first, s.last);
    i :| i < |MarkersOf(g, kind, lines, s.first, s.last)| && MarkersOf(g, kind, lines, s.first, s.last)[i] == b.first;
  }

  // ----- the whole document -----

  datatype Treatment = Whole(kind: BlockKind) | Rows(kind: BlockKind) | Cut(kind: BlockKind) | Unrecognized

  predicate StartsWith(s: string, p: string) {
    |p| <= |s| && s[..|p|] == p
  }

  function TreatmentOf(name: string): Treatment {
    if name == "Intent" then Whole(Intent)
    else if name == "User Stories" then Cut(UserStory)
    else if name == "Functional Requirements" then Rows(FunctionalRequirement)
    else if name == "Success Criteria" then Rows(SuccessCriterion)
    else if name == "Evidence" then Whole(Evidence)
    else if name == "Decisions" then Whole(Decision)
    else if name == "Constraints" then Cut(Constraint)
    else if name == "Out of Scope" then Cut(Scope)
    else if StartsWith(name, "Directional") then Whole(Directional)
    else if name == "Open Questions" then Cut(OpenQuestion)
    else Unrecognized
  }

  function RowAt(g: Grammar, kind: BlockKind, lines: seq<string>, n: nat): seq<Block>
    requires 1 <= n <= |lines|
  {
    var ref := g.rowRef(kind, lines[n - 1]);
    if ref.None? then []
    else
      var prefix := if kind == FunctionalRequirement then "FR-" else "SC-";
      [Block(kind, 2, lines[n - 1], None, Some(prefix + ref.value), n, n)]
  }

  /** One block per matching row after `first` and up to `n`. */
  function RowsUpTo(g: Grammar, kind: BlockKind, lines: seq<string>, first: nat, n: nat): seq<Block>
    requires n <= |lines|
  {
    if n <= first || n == 0 then [] else RowsUpTo(g, kind, lines, first, n - 1) + RowAt(g, kind, lines, n)
  }

  method EmitIdRows(g: Grammar, kind: BlockKind, lines: seq<string>, s: Section) returns (blocks: seq<Block>)
    requires s.first <= s.last <= |lines|
    ensures blocks == RowsUpTo(g, kind, lines, s.first, s.last)
  {
    hide RowAt;
    blocks := [];
    for n := s.first to s.last
      invariant blocks == RowsUpTo(g, kind, lines, s.first, n)
    {
      blocks := blocks + RowAt(g, kind, lines, n + 1);
    }
  }

  lemma {:induction false} RowsArePlaced(g: Grammar, kind: BlockKind, lines: seq<string>, first: nat, n: nat)
    requires 1 <= first <= n <= |lines|
    ensures WellPlaced(lines, RowsUpTo(g, kind, lines, first, n), first, n)
  {
    hide RowAt, SliceBody, WellPlaced;
    if n > first {
      RowsArePlaced(g, kind, lines, first, n - 1);
      RowIsPlaced(g, kind, lines, n);
      PlacedAppend(lines, RowsUpTo(g, kind, lines, first, n - 1), RowAt(g, kind, lines, n), first, n - 1, n, n);
    } else {
      NothingPlaced(lines, first, n);
    }
  }

  lemma {:induction false} NothingPlaced(lines: seq<string>, first: nat, last: nat)
    ensures WellPlaced(lines, [], first, last)
  {
  }

  lemma {:induction false} RowIsPlaced(g: Grammar, kind: BlockKind, lines: seq<string>, n: nat)
    requires 1 <= n <= |lines|
    ensures WellPlaced(lines, RowAt(g, kind, lines, n), n, n)
  {
    assert lines[n - 1..n] == [lines[n - 1]];
  }

  function WholeBlock(kind: BlockKind, lines: seq<string>, s: Section): Block
    requires 1 <= s.first <= s.last <= |lines|
  {
    var end := TrimTo(lines, s.first, s.last);
    Block(kind, 1, SliceBody(lines, s.first, end), Some(s.name), None, s.first, end)
  }

  function SectionBlocks(g: Grammar, lines: seq<string>, s: Section): seq<Block>
    requires 1 <= s.first <= s.last <= |lines|
  {
    match TreatmentOf(s.name)
    case Whole(kind) => [WholeBlock(kind, lines, s)]
    case Rows(kind) => RowsUpTo(g, kind, lines, s.first, s.last)
    case Cut(kind) => CutBlocks(g, kind, lines, s)
    case Unrecognized => []
  }

  lemma {:induction false} SectionBlocksArePlaced(g: Grammar, lines: seq<string>, s: Section)
    requires 1 <= s.first <= s.last <= |lines|
    ensures WellPlaced(lines, SectionBlocks(g, lines, s), s.first, s.last)
  {
    hide TreatmentOf, CutBlocks, RowsUpTo, SliceBody;
    match TreatmentOf(s.name)
    case Whole(kind) =>
    case Rows(kind) => RowsArePlaced(g, kind, lines, s.first, s.last);
    case Cut(kind) => CutBlocksArePlaced(g, kind, lines, s);
    case Unrecognized =>
  }

  lemma {:induction false} RowsAre(g: Grammar, kind: BlockKind, lines: seq<string>, s: Section, n: nat, b: Block)
    requires s.first <= n <= s.last <= |lines|
    ensures var prefix := if kind == FunctionalRequirement then "FR-" else "SC-";
      b in RowsUpTo(g, kind, lines, s.first, n) <==> IsRowOf(g, kind, prefix, lines, s, b) && b.first <= n
  {
    if s.first < n { RowsAre(g, kind, lines, s, n - 1, b); }
  }

  lemma {:induction false} WholeIs(kind: BlockKind, lines: seq<string>, s: Section, b: Block)
    requires 1 <= s.first <= s.last <= |lines|
    ensures b == WholeBlock(kind, lines, s) <==> IsWholeOf(kind, lines, s, b)
  {
    hide EndsAt, TrimTo;
    TrimToEnds(lines, s.first, s.last, b.last);
  }

  /** A section gives exactly the blocks that its name calls for. */
  lemma {:induction false} SectionBlocksAre(g: Grammar, lines: seq<string>, s: Section, b: Block)
    requires 1 <= s.first <= s.last <= |lines|
    ensures b in SectionBlocks(g, lines, s) <==> IsBlockOf(g, lines, s, b)
    ensures TreatmentOf(s.name).Unrecognized? <==> !IsKnown(s.name)
  {
    hide IsWholeOf, IsCutOf, IsRowOf, CutBlocks, RowsUpTo, WholeBlock;
    NamesDiffer(s.name);
    match TreatmentOf(s.name)
    case Whole(kind) => WholeIs(kind, lines, s, b);
    case Rows(kind) =>
      RowsAre(g, kind, lines, s, s.last, b);
      RowFits(g, kind, if kind == FunctionalRequirement then "FR-" else "SC-", lines, s, b);
    case Cut(kind) => CutBlocksAre(g, kind, lines, s, b);
    case Unrecognized =>
  }

  lemma {:induction false} RowFits(g: Grammar, kind: BlockKind, prefix: string, lines: seq<string>, s: Section,
                                   b: Block)
    ensures IsRowOf(g, kind, prefix, lines, s, b) ==> b.first <= s.last
  {
  }

  /** No other known name begins with Directional. */
  lemma {:induction false} NamesDiffer(name: string)
    ensures "Directional" <= name <==> StartsWith(name, "Directional")
    ensures "Directional" <= name ==> name[1] == 'i'
    ensures "Intent"[1] == 'n' && "User Stories"[1] == 's' && "Functional Requirements"[1] == 'u'
    ensures "Success Criteria"[1] == 'u' && "Evidence"[1] == 'v' && "Decisions"[1] == 'e' && "Constraints"[1] == 'o'
    ensures "Out of Scope"[1] == 'u' && "Open Questions"[1] == 'p'
  {
    if "Directional" <= name { assert name[1] == "Directional"[1]; }
  }

  /** Sections in source order, apart from each other. */
  ghost predicate InSourceOrder(lines: seq<string>, ss: seq<Section>) {
    && (forall i :: 0 <= i < |ss| ==> 1 <= ss[i].first <= ss[i].last <= |lines|)
    && forall i, j :: 0 <= i < j < |ss| ==> ss[i].last < ss[j].first
  }

  function AllBlocks(g: Grammar, lines: seq<string>, ss: seq<Section>, n: nat): seq<Block>
    requires n <= |ss| && InSourceOrder(lines, ss)
  {
    if n == 0 then [] else AllBlocks(g, lines, ss, n - 1) + SectionBlocks(g, lines, ss[n - 1])
  }

  function UnrecognizedNames(ss: seq<Section>, n: nat): seq<string>
    requires n <= |ss|
  {
    if n == 0 then []
    else UnrecognizedNames(ss, n - 1) + if TreatmentOf(ss[n - 1].name).Unrecognized? then [ss[n - 1].name] else []
  }

  lemma {:induction false} PlacedAppend(lines: seq<string>, a: seq<Block>, b: seq<Block>, first: nat, m: nat, k: nat,
                                        last: nat)
    requires WellPlaced(lines, a, first, m) && WellPlaced(lines, b, k, last)
    requires 1 <= first <= k && m < k && m <= last <= |lines|
    ensures WellPlaced(lines, a + b, first, last)
  {
    hide SliceBody;
    var bs := a + b;
    forall i | 0 <= i < |bs|
      ensures 1 <= first <= bs[i].first <= bs[i].last <= last <= |lines|
      ensures bs[i].body == SliceBody(lines, bs[i].first, bs[i].last)
      ensures if i < |a| then bs[i].last <= m else bs[i].first >= k
    {
      assert bs[i] == if i < |a| then a[i] else b[i - |a|];
    }
    forall i, j | 0 <= i < j < |bs| ensures bs[i].last < bs[j].first {
      assert bs[i] == if i < |a| then a[i] else b[i - |a|];
      assert bs[j] == if j < |a| then a[j] else b[j - |a|];
    }
  }

  /** The blocks of a whole document have increasing, disjoint line ranges, and their bodies are source slices. */
  lemma {:induction false} AllBlocksArePlaced(g: Grammar, lines: seq<string>, ss: seq<Section>, n: nat)
    requires n <= |ss| && InSourceOrder(lines, ss)
    ensures WellPlaced(lines, AllBlocks(g, lines, ss, n), 1, if n == 0 then 0 else ss[n - 1].last)
  {
    hide WellPlaced, SectionBlocks;
    if n == 0 {
      NoBlocksPlaced(lines);
    } else {
      AllBlocksArePlaced(g, lines, ss, n - 1);
      SectionBlocksArePlaced(g, lines, ss[n - 1]);
      PlacedAppend(lines, AllBlocks(g, lines, ss, n - 1), SectionBlocks(g, lines, ss[n - 1]), 1,
                   if n == 1 then 0 else ss[n - 2].last, ss[n - 1].first, ss[n - 1].last);
    }
  }

  lemma {:induction false} NoBlocksPlaced(lines: seq<string>)
    ensures WellPlaced(lines, [], 1, 0)
  {
  }

  method EmitSection(g: Grammar, lines: seq<string>, s: Section) returns (blocks: seq<Block>, known: bool)
    requires 1 <= s.first <= s.last <= |lines|
    ensures blocks == SectionBlocks(g, lines, s) && (known <==> !TreatmentOf(s.name).Unrecognized?)
  {
    hide TreatmentOf, CutBlocks, RowsUpTo;
    match TreatmentOf(s.name) {
      case Whole(kind) =>
        var end := TrimTrailingBlank(lines, s.first, s.last);
        return [Block(kind, 1, SliceBody(lines, s.first, end), Some(s.name), None, s.first, end)], true;
      case Rows(kind) =>
        blocks := EmitIdRows(g, kind, lines, s);
        return blocks, true;
      case Cut(kind) =>
        blocks := EmitBlocks(g, kind, lines, s);
        return blocks, true;
      case Unrecognized =>
        return [], false;
    }
  }

  /** The sections of the spans, sorted by where they start. */
  ghost predicate Sorts(ss: seq<Section>, spans: map<string, Section>) {
    && (forall s :: s in ss <==> s.name in spans && spans[s.name] == s)
    && forall i, j :: 0 <= i < j < |ss| ==> ss[i].first < ss[j].first
  }

  method InsertSection(ss: seq<Section>, s: Section) returns (r: seq<Section>)
    requires forall i, j :: 0 <= i < j < |ss| ==> ss[i].first < ss[j].first
    requires forall t :: t in ss ==> t.first != s.first
    ensures forall i, j :: 0 <= i < j < |r| ==> r[i].first < r[j].first
    ensures forall t :: t in r <==> t in ss || t == s
  {
    var i := 0;
    while i < |ss| && ss[i].first < s.first
      invariant 0 <= i <= |ss| && forall k :: 0 <= k < i ==> ss[k].first < s.first
    {
      i := i + 1;
    }
    r := ss[..i] + [s] + ss[i..];
    InsertedInOrder(ss, s, i);
  }

  lemma {:induction false} InsertedInOrder(ss: seq<Section>, s: Section, i: nat)
    requires forall i, j :: 0 <= i < j < |ss| ==> ss[i].first < ss[j].first
    requires forall t :: t in ss ==> t.first != s.first
    requires i <= |ss| && (forall k :: 0 <= k < i ==> ss[k].first < s.first) && (i < |ss| ==> s.first <= ss[i].first)
    ensures var r := ss[..i] + [s] + ss[i..];
      && (forall i, j :: 0 <= i < j < |r| ==> r[i].first < r[j].first)
      && forall t :: t in r <==> t in ss || t == s
  {
    var r := ss[..i] + [s] + ss[i..];
    TakeDrop(ss, i);
    forall k | i <= k < |ss| ensures s.first < ss[k].first { assert ss[i] in ss; }
    forall k | 0 <= k < |r| ensures r[k] == if k < i then ss[k] else if k == i then s else ss[k - 1] {}
  }

  method SortSections(g: Grammar, lines: seq<string>, spans: map<string, Section>) returns (ss: seq<Section>)
    requires AreSpans(g, lines, spans)
    ensures Sorts(ss, spans)
  {
    hide IsSection;
    ss := [];
    var rest := spans.Keys;
    while rest != {}
      invariant rest <= spans.Keys
      invariant forall s :: s in ss <==> s.name in spans && s.name !in rest && spans[s.name] == s
      invariant forall i, j :: 0 <= i < j < |ss| ==> ss[i].first < ss[j].first
      decreases rest
    {
      var name :| name in rest;
      forall t | t in ss ensures t.first != spans[name].first { StartsDiffer(g, lines, t, spans[name]); }
      ss := InsertSection(ss, spans[name]);
      rest := rest - {name};
    }
  }

  lemma {:induction false} StartsDiffer(g: Grammar, lines: seq<string>, a: Section, b: Section)
    requires IsSection(g, lines, a) && IsSection(g, lines, b) && a.name != b.name
    ensures a.first != b.first
  {
  }

  lemma {:induction false} SortedAreInSourceOrder(g: Grammar, lines: seq<string>, spans: map<string, Section>,
                                                  ss: seq<Section>)
    requires AreSpans(g, lines, spans) && Sorts(ss, spans)
    ensures InSourceOrder(lines, ss)
  {
    hide OpensNamed, Opens;
    forall i | 0 <= i < |ss| ensures IsSection(g, lines, ss[i]) && 1 <= ss[i].first <= ss[i].last <= |lines| {
      assert ss[i] in ss;
      SectionInRange(g, lines, ss[i]);
    }
    forall i, j | 0 <= i < j < |ss| ensures ss[i].last < ss[j].first { SectionsAreDisjoint(g, lines, ss[i], ss[j]); }
  }

  lemma {:induction false} SectionInRange(g: Grammar, lines: seq<string>, s: Section)
    requires IsSection(g, lines, s)
    ensures 1 <= s.first <= s.last <= |lines|
  {
  }

  /** The structural part of `parse_requirements`: blocks in source order and the names of sections it does not
      know.  A repeated section name counts with its last occurrence. */
  method ParseRequirements(g: Grammar, text: string)
    returns (blocks: seq<Block>, unrecognized: seq<string>, ghost spans: map<string, Section>, ghost ss: seq<Section>)
    ensures AreSpans(g, Split(text), spans) && Sorts(ss, spans) && InSourceOrder(Split(text), ss)
    ensures blocks == AllBlocks(g, Split(text), ss, |ss|) && unrecognized == UnrecognizedNames(ss, |ss|)
    ensures WellPlaced(Split(text), blocks, 1, |Split(text)|)
    ensures forall b ::
      b in blocks <==> exists name :: name in spans && IsBlockOf(g, Split(text), spans[name], b)
    ensures forall name :: name in unrecognized <==> name in spans && !IsKnown(name)
  {
    hide IsBlockOf, IsKnown, AreSpans, Sorts, TreatmentOf, SectionBlocks, Split, WellPlaced;
    var lines := Split(text);
    var found := SectionSpans(g, lines);
    var ordered := SortSections(g, lines, found);
    spans, ss := found, ordered;
    SortedAreInSourceOrder(g, lines, spans, ss);
    blocks, unrecognized := [], [];
    for i := 0 to |ordered|
      invariant blocks == AllBlocks(g, lines, ss, i) && unrecognized == UnrecognizedNames(ss, i)
    {
      var more, known := EmitSection(g, lines, ordered[i]);
      blocks := blocks + more;
      if !known {
        unrecognized := unrecognized + [ordered[i].name];
      }
    }
    BlocksOfDocument(g, lines, spans, ss);
    AllBlocksArePlaced(g, lines, ss, |ss|);
    PlacedWider(lines, blocks, if |ss| == 0 then 0 else ss[|ss| - 1].last, |lines|);
  }

  /** The blocks of all sections, and the names of those not known. */
  lemma {:induction false} AllBlocksAre(g: Grammar, lines: seq<string>, ss: seq<Section>, n: nat, b: Block)
    requires n <= |ss| && InSourceOrder(lines, ss)
    ensures b in AllBlocks(g, lines, ss, n) <==> exists i :: 0 <= i < n && IsBlockOf(g, lines, ss[i], b)
  {
    hide SectionBlocks, IsBlockOf;
    if n > 0 {
      AllBlocksAre(g, lines, ss, n - 1, b);
      SectionBlocksAre(g, lines, ss[n - 1], b);
    }
  }

  lemma {:induction false} UnrecognizedAre(g: Grammar, lines: seq<string>, ss: seq<Section>, n: nat, name: string)
    requires n <= |ss| && InSourceOrder(lines, ss)
    ensures name in UnrecognizedNames(ss, n) <==> exists i :: 0 <= i < n && ss[i].name == name && !IsKnown(name)
  {
    hide TreatmentOf, IsKnown;
    if n > 0 {
      UnrecognizedAre(g, lines, ss, n - 1, name);
      SectionBlocksAre(g, lines, ss[n - 1], Block(Intent, 0, "", None, None, 0, 0));
    }
  }

  /** The blocks of a document are exactly those that its sections call for by their names. */
  lemma {:induction false} BlocksOfDocument(g: Grammar, lines: seq<string>, spans: map<string, Section>,
                                            ss: seq<Section>)
    requires AreSpans(g, lines, spans) && Sorts(ss, spans) && InSourceOrder(lines, ss)
    ensures forall b ::
      b in AllBlocks(g, lines, ss, |ss|) <==> exists name :: name in spans && IsBlockOf(g, lines, spans[name], b)
    ensures forall name ::
      name in UnrecognizedNames(ss, |ss|) <==> name in spans && !IsKnown(name)
  {
    hide IsBlockOf, IsKnown, IsSection, InSourceOrder, OpensNamed, AllBlocks, UnrecognizedNames;
    forall name | name in spans ensures spans[name].name == name && spans[name] in ss { }
    forall b
      ensures b in AllBlocks(g, lines, ss, |ss|)
        <==> exists name :: name in spans && IsBlockOf(g, lines, spans[name], b)
    {
      AllBlocksAre(g, lines, ss, |ss|, b);
      if i :| 0 <= i < |ss| && IsBlockOf(g, lines, ss[i], b) { assert ss[i] in ss; }
      if name :| name in spans && IsBlockOf(g, lines, spans[name], b) {
        var i :| 0 <= i < |ss| && ss[i] == spans[name];
      }
    }
    forall name ensures name in UnrecognizedNames(ss, |ss|) <==> name in spans && !IsKnown(name) {
      UnrecognizedAre(g, lines, ss, |ss|, name);
      if i :| 0 <= i < |ss| && ss[i].name == name { assert ss[i] in ss; }
      if name in spans { var i :| 0 <= i < |ss| && ss[i] == spans[name]; }
    }
  }

  lemma {:induction false} PlacedWider(lines: seq<string>, bs: seq<Block>, last: nat, wider: nat)
    requires WellPlaced(lines, bs, 1, last) && last <= wider <= |lines|
    ensures WellPlaced(lines, bs, 1, wider)
  {
    hide SliceBody;
  }
}
