/** The edits the write-back path makes to a requirements file. */
module SurgicalEdit {
  import opened Text

  // As in `services/change_request_service.py`: locating the lines a quote sits on, replacing them, inserting a
  // new element, and the byte check made before the file is written.  The check is described by what it accepts,
  // and every edit made here is shown to pass it.

  // ----- locating a quote -----

  /** Start of the line holding position `at`: Python's `t.rfind("\n", 0, at) + 1`. */
  function LineStart(t: string, at: nat): (s: nat)
    requires at <= |t|
    ensures s <= at && (s == 0 || t[s - 1] == '\n') && forall k :: s <= k < at ==> t[k] != '\n'
  {
    if at == 0 || t[at - 1] == '\n' then at else LineStart(t, at - 1)
  }

  /** End of the line holding position `at`: the next newline, or the end of the text. */
  function LineEnd(t: string, at: nat): (e: nat)
    requires at <= |t|
    ensures at <= e <= |t| && (e == |t| || t[e] == '\n') && forall k :: at <= k < e ==> t[k] != '\n'
    decreases |t| - at
  {
    if at == |t| || t[at] == '\n' then at else LineEnd(t, at + 1)
  }

  datatype Span = Span(start: nat, end: nat)

  /** The lines a verbatim quote sits on; `None` when the quote is not in the text. */
  function QuoteSpan(t: string, quote: string): (r: Option<Span>)
    ensures r == None <==> forall j :: !Occurs(t, quote, j)
    ensures r.Some? ==> WholeLines(t, r.value)
  {
    var idx := Find(t, quote, 0);
    if idx < 0 then None else Some(Span(LineStart(t, idx), LineEnd(t, idx + |quote|)))
  }

  predicate WholeLines(t: string, s: Span) {
    && s.start <= s.end <= |t|
    && (s.start == 0 || t[s.start - 1] == '\n')
    && (s.end == |t| || t[s.end] == '\n')
  }

  function VerbatimLocate(content: string, targetQuote: Option<string>): Option<string> {
    match targetQuote
    case None => None
    case Some(quote) =>
      match QuoteSpan(content, quote)
      case None => None
      case Some(s) => Some(content[s.start..s.end])
  }

  /** A slice around the first occurrence of a quote first occurs where it was taken. */
  lemma {:induction false} SliceAroundFirstIsFirst(t: string, quote: string, s: nat, e: nat, idx: nat)
    requires Find(t, quote, 0) == idx
    requires s <= idx && idx + |quote| <= e <= |t|
    ensures Occurs(t[s..e], quote, idx - s)
    ensures Find(t, t[s..e], 0) == s
  {
    var region := t[s..e];
    OccursInSlice(t, quote, s, e, idx);
    forall j: nat | j < s ensures !Occurs(t, region, j) {
      if Occurs(t, region, j) {
        OccursTrans(t, region, quote, j, idx - s);
      }
    }
    FindIs(t, region, 0, s);
  }

  /** Searching the located region again lands on the very lines the quote was found on. */
  lemma {:induction false} RegionIsRefoundInPlace(content: string, quote: string)
    requires QuoteSpan(content, quote).Some?
    ensures var s := QuoteSpan(content, quote).value;
      var region := content[s.start..s.end];
      Find(content, region, 0) == s.start && exists k :: Occurs(region, quote, k)
  {
    var idx := Find(content, quote, 0);
    var s := QuoteSpan(content, quote).value;
    SliceAroundFirstIsFirst(content, quote, s.start, s.end, idx);
  }

  // ----- modification -----

  /** Python's `t[:i]`, where a negative bound counts from the end. */
  function UpTo(t: string, i: int): string {
    if i < 0 then t[..if |t| + i < 0 then 0 else |t| + i]
    else t[..if i > |t| then |t| else i]
  }

  /** Python's `t[i:]` for a bound that is not negative. */
  function From(t: string, i: nat): string {
    t[if i > |t| then |t| else i..]
  }

  function ApplyModification(content: string, region: string, proposedBody: string): string {
    var idx := Find(content, region, 0);
    UpTo(content, idx) + StripNewlines(proposedBody) + From(content, idx + |region|)
  }

  /** Number of lines before a span of whole lines. */
  function LinesBefore(t: string, s: Span): nat
    requires WholeLines(t, s)
  {
    |LinesOfHead(t[..s.start])|
  }

  lemma {:induction false} ReplaceWholeLines(t: string, s: Span, mid: string)
    requires WholeLines(t, s)
    ensures var region := t[s.start..s.end];
      var a := LinesBefore(t, s);
      var b := a + |Split(region)|;
      && b <= |Split(t)|
      && Split(t)[a..b] == Split(region)
      && Split(t[..s.start] + mid + t[s.end..]) == Split(t)[..a] + Split(mid) + Split(t)[b..]
  {
    var pre, region, post := t[..s.start], t[s.start..s.end], t[s.end..];
    assert t == pre + region + post;
    SplitAround(pre, region, post);
    SplitAround(pre, mid, post);
    CutInThree(Split(t), LinesOfHead(pre), Split(region), LinesOfTail(post));
  }

  /** A modification is a cut at the located span. */
  lemma {:induction false} ModificationText(content: string, quote: string, body: string)
    requires QuoteSpan(content, quote).Some?
    ensures var s := QuoteSpan(content, quote).value;
      ApplyModification(content, content[s.start..s.end], body)
      == content[..s.start] + StripNewlines(body) + content[s.end..]
  {
    RegionIsRefoundInPlace(content, quote);
  }

  /**
  A modification replaces exactly the whole lines spanning the quote: the lines before and after
  survive in place, and the lines in between are the located region, which holds the quote.
  */
  lemma {:induction false} ModificationReplacesWholeLines(content: string, quote: string, body: string)
    requires QuoteSpan(content, quote).Some?
    ensures var s := QuoteSpan(content, quote).value;
      var region := content[s.start..s.end];
      var a := LinesBefore(content, s);
      var b := a + |Split(region)|;
      && (exists k :: Occurs(region, quote, k))
      && b <= |Split(content)|
      && Split(content)[a..b] == Split(region)
      && Split(ApplyModification(content, region, body))
         == Split(content)[..a] + Split(StripNewlines(body)) + Split(content)[b..]
  {
    hide Split, ApplyModification, LinesBefore, StripNewlines, Find;
    var s := QuoteSpan(content, quote).value;
    RegionIsRefoundInPlace(content, quote);
    ModificationText(content, quote, body);
    ReplaceWholeLines(content, s, StripNewlines(body));
  }

  // ----- addition -----

  predicate IsHeading(line: string) {
    |line| >= 3 && line[..3] == "## "
  }

  predicate HeadingNamed(line: string, hint: string) {
    IsHeading(line) && Strip(line[3..]) == hint
  }

  /** A line is the heading `hint` when it starts with two hashes and a blank, and then holds the hint and nothing else
      but white space around it. */
  lemma {:induction false} HeadingNamedIs(line: string, hint: string)
    ensures IsHeading(line) <==> "## " <= line
    ensures HeadingNamed(line, hint) <==> "## " <= line && Surrounds(line[3..], hint)
  {
    if |line| >= 3 { StripIs(line[3..], hint); }
  }

  /** First line from `i` on that is the heading `hint`, or the number of lines. */
  function HeadIndex(lines: seq<string>, hint: string, i: nat): (h: nat)
    requires i <= |lines|
    ensures i <= h <= |lines|
    ensures h < |lines| ==> HeadingNamed(lines[h], hint)
    ensures forall k :: i <= k < h ==> !HeadingNamed(lines[k], hint)
    decreases |lines| - i
  {
    if i == |lines| || HeadingNamed(lines[i], hint) then i else HeadIndex(lines, hint, i + 1)
  }

  /** First heading line from `i` on, or the number of lines. */
  function SectionEnd(lines: seq<string>, i: nat): (e: nat)
    requires i <= |lines|
    ensures i <= e <= |lines|
    ensures e < |lines| ==> IsHeading(lines[e])
    ensures forall k :: i <= k < e ==> !IsHeading(lines[k])
    decreases |lines| - i
  {
    if i == |lines| || IsHeading(lines[i]) then i else SectionEnd(lines, i + 1)
  }

  /** Last line of `lines[h..e]` that is not blank, or `h`. */
  function LastFilled(lines: seq<string>, h: nat, e: nat): (last: nat)
    requires h < e <= |lines|
    ensures h <= last < e
    ensures last == h || !Blank(lines[last])
    ensures forall k :: last < k < e ==> Blank(lines[k])
  {
    if e == h + 1 || !Blank(lines[e - 1]) then e - 1 else LastFilled(lines, h, e - 1)
  }

  /** Line after which an element of the section `hint` goes; `None` when there is no such section. */
  function InsertionPoint(lines: seq<string>, hint: string): (p: Option<nat>)
    ensures p.Some? ==> p.value < |lines|
  {
    var h := HeadIndex(lines, hint, 0);
    if h == |lines| then None else Some(LastFilled(lines, h, SectionEnd(lines, h + 1)))
  }

  /** Line `p` is the last one of the first section named `hint` that is not blank, or its heading. */
  ghost predicate EndsSection(lines: seq<string>, hint: string, p: nat) {
    exists h: nat ::
      && h <= p < |lines| && HeadingNamed(lines[h], hint)
      && (forall k :: 0 <= k < h ==> !HeadingNamed(lines[k], hint))
      && (forall k :: h < k <= p ==> !IsHeading(lines[k]))
      && (p == h || !Blank(lines[p]))
      && forall k :: p < k < |lines| && (forall j :: p < j <= k ==> !IsHeading(lines[j])) ==> Blank(lines[k])
  }

  lemma {:induction false} InsertionPointIs(lines: seq<string>, hint: string)
    ensures InsertionPoint(lines, hint) == None <==> forall l :: l in lines ==> !HeadingNamed(l, hint)
    ensures InsertionPoint(lines, hint).Some? ==> EndsSection(lines, hint, InsertionPoint(lines, hint).value)
  {
    hide HeadingNamed, IsHeading, Blank;
    var h := HeadIndex(lines, hint, 0);
    if h < |lines| {
      assert lines[h] in lines;
      var e := SectionEnd(lines, h + 1);
      var p := LastFilled(lines, h, e);
      forall k | p < k < |lines| && (forall j :: p < j <= k ==> !IsHeading(lines[j])) ensures Blank(lines[k]) {
        assert k < e;
      }
      assert EndsSection(lines, hint, p);
    }
  }

  /** Length of the text of the first `n` lines, newlines included. */
  function OffsetOf(lines: seq<string>, n: nat): nat
    requires n <= |lines|
  {
    if n == 0 then 0 else OffsetOf(lines, n - 1) + |lines[n - 1]| + 1
  }

  lemma {:induction false} OffsetIsJoinLength(lines: seq<string>, n: nat)
    requires n < |lines|
    ensures |Join(lines[..n + 1])| == OffsetOf(lines, n) + |lines[n]|
  {
    if n > 0 {
      OffsetIsJoinLength(lines, n - 1);
      assert lines[..n + 1] == lines[..n] + [lines[n]];
      JoinAppend(lines[..n], [lines[n]]);
    }
  }

  function CutAfter(content: string, last: nat): (cut: nat)
    requires last < |Split(content)|
    ensures cut <= |content|
  {
    CutIsJoinLength(content, last);
    OffsetOf(Split(content), last) + |Split(content)[last]|
  }

  lemma {:induction false} CutIsJoinLength(content: string, last: nat)
    requires last < |Split(content)|
    ensures var lines := Split(content);
      && OffsetOf(lines, last) + |lines[last]| == |Join(lines[..last + 1])|
      && content == Join(lines[..last + 1]) + TailText(lines[last + 1..])
  {
    JoinSplit(content);
    PrefixOfJoin(Split(content), last);
  }

  lemma {:induction false} PrefixOfJoin(lines: seq<string>, n: nat)
    requires n < |lines|
    ensures OffsetOf(lines, n) + |lines[n]| == |Join(lines[..n + 1])|
    ensures Join(lines) == Join(lines[..n + 1]) + TailText(lines[n + 1..])
  {
    OffsetIsJoinLength(lines, n);
    TakeDrop(lines, n + 1);
    JoinParts(lines[..n + 1], lines[n + 1..]);
  }

  /** Text with `body` spliced in as new lines after line `last`. */
  function SpliceAfter(content: string, last: nat, body: string): string
    requires last < |Split(content)|
  {
    content[..CutAfter(content, last)] + "\n" + body + content[CutAfter(content, last)..]
  }

  /** The spliced text reads as the old lines with the lines of `body` inserted at one point. */
  lemma {:induction false} SplicedLines(content: string, last: nat, body: string)
    requires last < |Split(content)|
    ensures var lines := Split(content);
      Split(SpliceAfter(content, last, body)) == lines[..last + 1] + Split(body) + lines[last + 1..]
  {
    var lines := Split(content);
    var cut := CutAfter(content, last);
    CutLines(content, last);
    var pre, post := content[..cut] + "\n", content[cut..];
    SplitAround(pre, body, post);
    CutAt(pre, content[..cut], "\n");
  }

  lemma {:induction false} CutLines(content: string, last: nat)
    requires last < |Split(content)|
    ensures var lines := Split(content);
      var cut := CutAfter(content, last);
      var post := content[cut..];
      && Split(content[..cut]) == lines[..last + 1]
      && (post == "" || post[0] == '\n')
      && LinesOfTail(post) == lines[last + 1..]
  {
    var a, b := Split(content)[..last + 1], Split(content)[last + 1..];
    SplitLineFree(content);
    CutIsJoinLength(content, last);
    CutAt(content, Join(a), TailText(b));
    SplitJoin(a);
    LinesOfTailText(b);
  }

  function SectionInsertion(content: string, hint: string, body: string): Option<string> {
    match InsertionPoint(Split(content), hint)
    case None => None
    case Some(last) => Some(SpliceAfter(content, last, body))
  }

  /** The text with the lines of `body` right after the end of the first section named `hint`. */
  ghost predicate InsertedUnder(content: string, hint: string, body: string, after: string) {
    exists p: nat ::
      && EndsSection(Split(content), hint, p)
      && Split(after) == Split(content)[..p + 1] + Split(body) + Split(content)[p + 1..]
  }

  lemma {:induction false} SectionInsertionIs(content: string, hint: string, body: string)
    ensures var r := SectionInsertion(content, hint, body);
      && (r == None <==> forall l :: l in Split(content) ==> !HeadingNamed(l, hint))
      && (r.Some? ==> InsertedUnder(content, hint, body, r.value))
  {
    hide Split, HeadingNamed, InsertionPoint, EndsSection, SpliceAfter;
    InsertionPointIs(Split(content), hint);
    var p := InsertionPoint(Split(content), hint);
    if p.Some? { SplicedLines(content, p.value, body); }
  }

  /** The last line of the section that starts at `head` that is not blank, or `head`. */
  method LastOfSection(lines: seq<string>, head: nat) returns (last: nat)
    requires head < |lines|
    ensures last == LastFilled(lines, head, SectionEnd(lines, head + 1))
  {
    hide IsHeading, Blank;
    var secEnd := head + 1;
    while secEnd < |lines| && !IsHeading(lines[secEnd])
      invariant head < secEnd <= |lines|
      invariant SectionEnd(lines, head + 1) == SectionEnd(lines, secEnd)
    {
      secEnd := secEnd + 1;
    }
    last := head;
    for k := head + 1 to secEnd
      invariant last == LastFilled(lines, head, k)
    {
      if !Blank(lines[k]) {
        last := k;
      }
    }
  }

  /** Offset of the end of a line, before its newline. */
  method EndOfLine(content: string, last: nat) returns (offset: nat)
    requires last < |Split(content)|
    ensures offset == CutAfter(content, last)
  {
    hide Split;
    var lines := Split(content);
    offset := 0;
    for n := 0 to last
      invariant offset == OffsetOf(lines, n)
    {
      offset := offset + |lines[n]| + 1;
    }
    offset := offset + |lines[last]|;
  }

  /**
  Insert `body` after the last line of the named section that is not blank; `None` when no such
  section exists.
  */
  method InsertInSection(content: string, hint: string, body: string) returns (r: Option<string>)
    ensures r == None <==> forall l :: l in Split(content) ==> !HeadingNamed(l, hint)
    ensures r.Some? ==> InsertedUnder(content, hint, body, r.value)
    ensures r == SectionInsertion(content, hint, body)
  {
    hide Split, HeadingNamed, IsHeading, Blank, InsertedUnder, EndsSection, CutAfter;
    var lines := Split(content);
    SectionInsertionIs(content, hint, body);
    var head := 0;
    while head < |lines| && !HeadingNamed(lines[head], hint)
      invariant 0 <= head <= |lines|
      invariant HeadIndex(lines, hint, 0) == HeadIndex(lines, hint, head)
      invariant forall k :: 0 <= k < head ==> !HeadingNamed(lines[k], hint)
    {
      head := head + 1;
    }
    if head == |lines| {
      return None;
    }
    assert HeadingNamed(lines[head], hint);
    var last := LastOfSection(lines, head);
    var offset := EndOfLine(content, last);
    r := Some(content[..offset] + "\n" + body + content[offset..]);
  }

  /** What `ApplyAddition` computes: under the named section if there is one, else at the tail. */
  function AdditionResult(content: string, proposedBody: string, hint: Option<string>): string {
    var body := StripNewlines(proposedBody);
    var spliced := if hint.Some? && hint.value != "" then SectionInsertion(content, hint.value, body)
                   else None;
    if spliced.Some? then spliced.value
    else if content == "" || content[|content| - 1] == '\n' then content + (body + "\n")
    else content + ("\n" + body + "\n")
  }

  /** A hint that names a section of the text. */
  ghost predicate NamesSection(content: string, hint: Option<string>) {
    hint.Some? && hint.value != "" && exists l :: l in Split(content) && HeadingNamed(l, hint.value)
  }

  /** The text with the lines of `body` at its end, and a final newline; an open last line is closed first. */
  ghost predicate AppendedAtEnd(content: string, body: string, after: string) {
    var lines := Split(content);
    var closed := content == "" || content[|content| - 1] == '\n';
    Split(after) == (if closed then lines[..|lines| - 1] else lines) + Split(body) + [""]
  }

  lemma {:induction false} AppendedIs(content: string, body: string)
    ensures var after :=
        if content == "" || content[|content| - 1] == '\n' then content + (body + "\n")
        else content + ("\n" + body + "\n");
      AppendedAtEnd(content, body, after)
  {
    hide Split;
    if content == "" {
      assert content + (body + "\n") == body + "\n";
      SplitEnded(body);
      SplitSingle("");
      assert Split(content)[..|Split(content)| - 1] + Split(body) == Split(body);
    } else if content[|content| - 1] == '\n' {
      assert content == content[..|content| - 1] + "\n";
      AppendedToLine(content[..|content| - 1], body);
    } else {
      SplitAfterLine(content, body);
    }
  }

  lemma {:induction false} SplitEnded(body: string)
    ensures Split(body + "\n") == Split(body) + [""]
  {
    hide Split;
    SplitAppend(body, "");
    SplitSingle("");
    assert body + "\n" + "" == body + "\n";
  }

  lemma {:induction false} SplitAfterLine(front: string, body: string)
    ensures Split(front + ("\n" + body + "\n")) == Split(front) + Split(body) + [""]
  {
    hide Split;
    SplitEnded(body);
    SplitAppend(front, body + "\n");
    assert front + "\n" + (body + "\n") == front + ("\n" + body + "\n");
    Assoc(Split(front), Split(body), [""]);
  }

  lemma {:induction false} AppendedToLine(front: string, body: string)
    ensures AppendedAtEnd(front + "\n", body, front + "\n" + (body + "\n"))
  {
    hide Split;
    SplitEnded(front);
    CutAt(Split(front + "\n"), Split(front), [""]);
    SplitAfterLine(front, body);
    assert front + "\n" + (body + "\n") == front + ("\n" + body + "\n");
  }

  lemma {:induction false} AdditionIs(content: string, proposedBody: string, hint: Option<string>)
    ensures var after, body := AdditionResult(content, proposedBody, hint), StripNewlines(proposedBody);
      if NamesSection(content, hint) then InsertedUnder(content, hint.value, body, after)
      else AppendedAtEnd(content, body, after)
  {
    hide Split, StripNewlines, InsertedUnder, AppendedAtEnd, HeadingNamed, SectionInsertion;
    var body := StripNewlines(proposedBody);
    if hint.Some? { SectionInsertionIs(content, hint.value, body); }
    AppendedIs(content, body);
  }

  /** The new lines go under the section the hint names, or to the end when it names none. */
  method ApplyAddition(content: string, proposedBody: string, hint: Option<string>)
    returns (r: string)
    ensures r == AdditionResult(content, proposedBody, hint)
    ensures if NamesSection(content, hint) then InsertedUnder(content, hint.value, StripNewlines(proposedBody), r)
            else AppendedAtEnd(content, StripNewlines(proposedBody), r)
  {
    AdditionIs(content, proposedBody, hint);
    var body := StripNewlines(proposedBody);
    if hint.Some? && hint.value != "" {
      var spliced := InsertInSection(content, hint.value, body);
      if spliced.Some? {
        return spliced.value;
      }
    }
    if content == "" || content[|content| - 1] == '\n' {
      return content + (body + "\n");
    }
    return content + ("\n" + body + "\n");
  }

  // ----- the byte check before a write -----

  /** `after` is `before` with one contiguous run of characters put in at offset `k`. */
  predicate InsertsAt(before: string, after: string, k: nat) {
    && k <= |before| <= |after|
    && after[..k] == before[..k]
    && after[|after| - (|before| - k)..] == before[k..]
  }

  predicate IsInsertion(before: string, after: string) {
    exists k: nat :: k <= |before| && InsertsAt(before, after, k)
  }

  function Min(x: int, y: int): int { if x <= y then x else y }

  method CommonPrefixLen(a: string, b: string) returns (i: nat)
    ensures i <= Min(|a|, |b|)
    ensures forall k :: 0 <= k < i ==> a[k] == b[k]
    ensures i < Min(|a|, |b|) ==> a[i] != b[i]
  {
    var n := Min(|a|, |b|);
    i := 0;
    while i < n && a[i] == b[i]
      invariant 0 <= i <= n
      invariant forall k :: 0 <= k < i ==> a[k] == b[k]
    {
      i := i + 1;
    }
  }

  /** Longest common suffix that stays clear of the first `floor` characters. */
  method CommonSuffixLen(a: string, b: string, floor: nat) returns (i: nat)
    ensures i == 0 || i + floor <= Min(|a|, |b|)
    ensures i <= Min(|a|, |b|) && a[|a| - i..] == b[|b| - i..]
    ensures i + floor < Min(|a|, |b|) ==> a[|a| - 1 - i] != b[|b| - 1 - i]
  {
    var n := Min(|a|, |b|) - floor;
    i := 0;
    while i < n && a[|a| - 1 - i] == b[|b| - 1 - i]
      invariant i == 0 || i <= n
      invariant a[|a| - i..] == b[|b| - i..]
    {
      SuffixGrows(a, b, i);
      i := i + 1;
    }
  }

  lemma {:induction false} SuffixGrows(a: string, b: string, i: nat)
    requires i < |a| && i < |b|
    requires a[|a| - i..] == b[|b| - i..] && a[|a| - 1 - i] == b[|b| - 1 - i]
    ensures a[|a| - (i + 1)..] == b[|b| - (i + 1)..]
  {
    assert a[|a| - (i + 1)..] == [a[|a| - 1 - i]] + a[|a| - i..];
    assert b[|b| - (i + 1)..] == [b[|b| - 1 - i]] + b[|b| - i..];
  }

  /** A region stands in a text: what lies before and after its first occurrence survives in `after`. */
  predicate KeepsAround(before: string, after: string, region: string) {
    var idx := Find(before, region, 0);
    var prefix, suffix := UpTo(before, idx), From(before, idx + |region|);
    prefix <= after && |suffix| <= |after| && after[|after| - |suffix|..] == suffix
  }

  /** What the check before a write demands of an edit. */
  predicate Surgical(before: string, after: string, isAddition: bool, region: Option<string>) {
    if isAddition then IsInsertion(before, after)
    else KeepsAround(before, after, if region.Some? then region.value else "")
  }

  /**
  The check before a write.  For an addition the greedy prefix, then the suffix kept clear of it,
  lose nothing: the check passes exactly when the edit is one contiguous insertion.
  */
  method VerifySurgical(before: string, after: string, isAddition: bool, region: Option<string>)
    returns (ok: bool)
    ensures ok <==> Surgical(before, after, isAddition, region)
  {
    hide IsInsertion, InsertsAt, Occurs, UpTo, From;
    if isAddition {
      var p := CommonPrefixLen(before, after);
      var s := CommonSuffixLen(before, after, p);
      ok := p >= |before| - s;
      if ok {
        InsertionFound(before, after, p, s);
      } else {
        NoInsertion(before, after, p, s);
      }
    } else {
      var r := if region.Some? then region.value else "";
      var idx := Find(before, r, 0);
      var prefix, suffix := UpTo(before, idx), From(before, idx + |r|);
      ok := prefix <= after && |suffix| <= |after| && after[|after| - |suffix|..] == suffix;
    }
  }

  lemma {:induction false} InsertionFound(before: string, after: string, p: nat, s: nat)
    requires p <= Min(|before|, |after|) && s <= Min(|before|, |after|) && (s == 0 || s + p <= Min(|before|, |after|))
    requires forall k :: 0 <= k < p ==> before[k] == after[k]
    requires before[|before| - s..] == after[|after| - s..] && p >= |before| - s
    ensures IsInsertion(before, after)
  {
    assert s == |before| - p;
    assert InsertsAt(before, after, p);
  }

  lemma {:induction false} NoInsertion(before: string, after: string, p: nat, s: nat)
    requires p <= Min(|before|, |after|) && (s == 0 || s + p <= Min(|before|, |after|))
    requires p < Min(|before|, |after|) ==> before[p] != after[p]
    requires s + p < Min(|before|, |after|) ==> before[|before| - 1 - s] != after[|after| - 1 - s]
    requires p + s < |before|
    ensures !IsInsertion(before, after)
  {
    forall k: nat | k <= |before| && InsertsAt(before, after, k) ensures false {
      InsertionAgrees(before, after, k);
    }
  }

  lemma {:induction false} InsertionAgrees(before: string, after: string, k: nat)
    requires InsertsAt(before, after, k)
    ensures forall j :: 0 <= j < k ==> before[j] == after[j]
    ensures forall j :: k <= j < |before| ==> before[j] == after[j + |after| - |before|]
  {
    forall j | 0 <= j < k ensures before[j] == after[j] {
      assert before[..k][j] == after[..k][j];
    }
    forall j | k <= j < |before| ensures before[j] == after[j + |after| - |before|] {
      assert before[k..][j - k] == after[|after| - (|before| - k)..][j - k];
    }
  }

  /** Every addition, on all three lanes, is one contiguous insertion and so passes the check. */
  lemma {:induction false} AdditionIsInsertion(content: string, proposedBody: string, hint: Option<string>)
    ensures Surgical(content, AdditionResult(content, proposedBody, hint), true, None)
  {
    hide IsInsertion, StripNewlines, InsertionPoint, Split, CutAfter;
    var after := AdditionResult(content, proposedBody, hint);
    var body := StripNewlines(proposedBody);
    if hint.Some? && hint.value != "" && SectionInsertion(content, hint.value, body).Some? {
      var last := InsertionPoint(Split(content), hint.value).value;
      InsertionShape(content, after, CutAfter(content, last), "\n" + body);
    } else if content == "" || content[|content| - 1] == '\n' {
      InsertionShape(content, after, |content|, body + "\n");
    } else {
      InsertionShape(content, after, |content|, "\n" + body + "\n");
    }
  }

  lemma {:induction false} InsertionShape(before: string, after: string, k: nat, x: string)
    requires k <= |before| && after == before[..k] + x + before[k..]
    ensures IsInsertion(before, after)
  {
    CutInThree(after, before[..k], x, before[k..]);
    assert InsertsAt(before, after, k);
  }

  /** Every modification of a located region passes the check. */
  lemma {:induction false} ModificationIsSurgical(content: string, quote: string, body: string)
    requires QuoteSpan(content, quote).Some?
    ensures var s := QuoteSpan(content, quote).value;
      var region := content[s.start..s.end];
      Surgical(content, ApplyModification(content, region, body), false, Some(region))
  {
    var s := QuoteSpan(content, quote).value;
    var after := ApplyModification(content, content[s.start..s.end], body);
    RegionIsRefoundInPlace(content, quote);
    ModificationText(content, quote, body);
    CutInThree(after, content[..s.start], StripNewlines(body), content[s.end..]);
  }

  /**
  For modifications the check lets the text before and the text after the region overlap.  It is
  exact, meaning that only the region was replaced, once the new text is long enough to hold both.
  */
  lemma {:induction false} ModificationCheckIsExactWithoutOverlap(before: string, after: string, region: string)
    requires Find(before, region, 0) >= 0
    ensures var idx := Find(before, region, 0);
      KeepsAround(before, after, region) && |after| >= |before| - |region|
      <==> exists x: string :: after == before[..idx] + x + before[idx + |region|..]
  {
    var idx := Find(before, region, 0);
    var prefix, suffix := before[..idx], before[idx + |region|..];
    if KeepsAround(before, after, region) && |after| >= |before| - |region| {
      FillGap(after, prefix, suffix);
    }
    forall x: string | after == prefix + x + suffix
      ensures KeepsAround(before, after, region) && |after| >= |before| - |region|
    {
      CutInThree(after, prefix, x, suffix);
    }
  }

  lemma {:induction false} FillGap(t: string, prefix: string, suffix: string)
    requires prefix <= t && |prefix| + |suffix| <= |t| && t[|t| - |suffix|..] == suffix
    ensures t == prefix + t[|prefix|..|t| - |suffix|] + suffix
  {
  }

  /** Such an overlap: the check accepts a text in which one line break stands for two. */
  lemma {:induction false} ModificationCheckAcceptsOverlap()
    ensures KeepsAround("a\nx\na", "a\na", "x")
    ensures forall x: string :: "a\na" != "a\n" + x + "\na"
  {
    var t := "a\nx\na";
    assert forall j :: Occurs(t, "x", j) ==> t[j..j + 1][0] == t[j];
    FindIs(t, "x", 0, 2);
    assert t[3..] == "\na" && "a\na"[1..] == "\na";
    forall x: string ensures "a\na" != "a\n" + x + "\na" {
      assert |"a\n" + x + "\na"| >= 4;
    }
  }
}
