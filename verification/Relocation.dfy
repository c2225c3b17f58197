/** Where a quote is found again after its lines were edited. */
module Relocation {
  import opened Text
  import opened SurgicalEdit
  import opened WriteBack

  // The conflict verdict compares the text of the lines that first hold a quote, in the base version and in the
  // file.  These laws say when an edited line is noticed, and when an applied request can be applied again.

  // ----- a quote within one line -----

  predicate Holds(line: string, quote: string) {
    Find(line, quote, 0) != -1
  }

  /** The first line that holds the quote. */
  function FirstLine(lines: seq<string>, quote: string): (r: Option<string>)
    ensures r == None <==> forall l :: l in lines ==> !Holds(l, quote)
    ensures r.Some? ==> r.value in lines && Holds(r.value, quote)
  {
    if lines == [] then None
    else if Holds(lines[0], quote) then Some(lines[0])
    else FirstLine(lines[1..], quote)
  }

  lemma {:induction false} FirstLineAppend(a: seq<string>, b: seq<string>, quote: string)
    ensures FirstLine(a + b, quote) == if FirstLine(a, quote).Some? then FirstLine(a, quote) else FirstLine(b, quote)
  {
    if a == [] {
      assert a + b == b;
    } else {
      assert (a + b)[1..] == a[1..] + b;
      FirstLineAppend(a[1..], b, quote);
    }
  }

  /** What a line holds, the joined text holds. */
  lemma {:induction false} LineInText(lines: seq<string>, l: string, quote: string) returns (j: nat)
    requires l in lines && Holds(l, quote)
    ensures Occurs(Join(lines), quote, j)
  {
    if lines[0] == l {
      j := Find(l, quote, 0);
      if |lines| > 1 { OccursBefore(l, "\n" + Join(lines[1..]), quote, j); }
    } else {
      var k := LineInText(lines[1..], l, quote);
      OccursAfter(lines[0] + "\n", Join(lines[1..]), quote, k);
      j := |lines[0]| + 1 + k;
    }
  }

  lemma {:induction false} OccursBefore(a: string, b: string, quote: string, i: nat)
    requires Occurs(a, quote, i)
    ensures Occurs(a + b, quote, i)
  {
    assert (a + b)[i..i + |quote|] == a[i..i + |quote|];
  }

  lemma {:induction false} OccursAfter(a: string, b: string, quote: string, i: nat)
    requires Occurs(b, quote, i)
    ensures Occurs(a + b, quote, |a| + i)
  {
    assert (a + b)[|a| + i..|a| + i + |quote|] == b[i..i + |quote|];
  }

  lemma {:induction false} HeadLineInText(pre: string, rest: string, l: string, quote: string) returns (j: nat)
    requires l in LinesOfHead(pre) && Holds(l, quote)
    ensures j < |pre| && Occurs(pre + rest, quote, j)
  {
    hide Split, Holds;
    var head := pre[..|pre| - 1];
    j := LineInText(Split(head), l, quote);
    JoinSplit(head);
    OccursBefore(head, pre[|pre| - 1..] + rest, quote, j);
    Assoc(head, pre[|pre| - 1..], rest);
    TakeDrop(pre, |pre| - 1);
  }

  /** No line before the located one holds the quote. */
  lemma {:induction false} HeadHoldsNone(t: string, quote: string)
    requires QuoteSpan(t, quote).Some?
    ensures FirstLine(LinesOfHead(t[..QuoteSpan(t, quote).value.start]), quote) == None
  {
    hide LinesOfHead, Holds, WholeLines;
    var s := QuoteSpan(t, quote).value;
    TakeDrop(t, s.start);
    forall l | l in LinesOfHead(t[..s.start]) ensures !Holds(l, quote) {
      if Holds(l, quote) {
        var j := HeadLineInText(t[..s.start], t[s.start..], l, quote);
        assert false;
      }
    }
  }

  /** The line a quote without line breaks sits on has none either, and holds it. */
  lemma {:induction false} RegionIsOneLine(t: string, quote: string)
    requires QuoteSpan(t, quote).Some? && '\n' !in quote
    ensures var s := QuoteSpan(t, quote).value;
      var region := t[s.start..s.end];
      '\n' !in region && Holds(region, quote)
  {
    var s, idx := QuoteSpan(t, quote).value, Find(t, quote, 0);
    RegionIsRefoundInPlace(t, quote);
    QuoteHasNoBreak(t, quote, idx);
  }

  lemma {:induction false} QuoteHasNoBreak(t: string, quote: string, idx: nat)
    requires Occurs(t, quote, idx) && '\n' !in quote
    ensures forall k :: idx <= k < idx + |quote| ==> t[k] != '\n'
  {
    forall k | idx <= k < idx + |quote| ensures t[k] != '\n' {
      assert t[k] == t[idx..idx + |quote|][k - idx] == quote[k - idx];
    }
  }

  /** The lines after the located ones. */
  function LinesAfter(t: string, quote: string): seq<string>
    requires QuoteSpan(t, quote).Some?
  {
    LinesOfTail(t[QuoteSpan(t, quote).value.end..])
  }

  /** A text with the located lines put in another form. */
  function Rewritten(t: string, quote: string, r: string): string
    requires QuoteSpan(t, quote).Some?
  {
    var s := QuoteSpan(t, quote).value;
    t[..s.start] + r + t[s.end..]
  }

  lemma {:induction false} EditedLines(t: string, quote: string, r: string)
    requires QuoteSpan(t, quote).Some?
    ensures FirstLine(Split(Rewritten(t, quote, r)), quote) == FirstLine(Split(r) + LinesAfter(t, quote), quote)
  {
    var s := QuoteSpan(t, quote).value;
    var pre, post := t[..s.start], t[s.end..];
    SplitAround(pre, r, post);
    Assoc(LinesOfHead(pre), Split(r), LinesOfTail(post));
    FirstLineAppend(LinesOfHead(pre), Split(r) + LinesOfTail(post), quote);
    HeadHoldsNone(t, quote);
  }

  lemma {:induction false} RewrittenAsBefore(t: string, quote: string)
    requires QuoteSpan(t, quote).Some?
    ensures var s := QuoteSpan(t, quote).value; Rewritten(t, quote, t[s.start..s.end]) == t
  {
  }

  /** Locating a quote without line breaks is finding the first line that holds it. */
  lemma {:induction false} LocateIsFirstLine(t: string, quote: string)
    requires '\n' !in quote
    ensures VerbatimLocate(t, Some(quote)) == FirstLine(Split(t), quote)
  {
    hide Split, LinesAfter, Occurs, WholeLines, FirstLine;
    if QuoteSpan(t, quote).Some? {
      var s := QuoteSpan(t, quote).value;
      var region := t[s.start..s.end];
      EditedLines(t, quote, region);
      RegionIsOneLine(t, quote);
      SplitSingle(region);
      RewrittenAsBefore(t, quote);
      FirstOfLine(region, LinesAfter(t, quote), quote);
    } else {
      NoLineHolds(t, quote);
    }
  }

  lemma {:induction false} FirstOfLine(l: string, rest: seq<string>, quote: string)
    requires Holds(l, quote)
    ensures FirstLine([l] + rest, quote) == Some(l)
  {
  }

  lemma {:induction false} NoLineHolds(t: string, quote: string)
    requires QuoteSpan(t, quote) == None
    ensures FirstLine(Split(t), quote) == None
  {
    hide Split, Holds;
    forall l | l in Split(t) ensures !Holds(l, quote) {
      if Holds(l, quote) {
        var j := LineInText(Split(t), l, quote);
        JoinSplit(t);
        assert false;
      }
    }
  }

  // ----- a quote of any number of lines -----

  predicate EndsWith(line: string, p: string) {
    |p| <= |line| && line[|line| - |p|..] == p
  }

  predicate StartsWith(line: string, p: string) {
    |p| <= |line| && line[..|p|] == p
  }

  /** The lines from `i` on hold a quote of these pieces: the first ends with its first piece, the last starts with its
      last one, and those between are its other pieces. */
  predicate StretchAt(lines: seq<string>, pieces: seq<string>, i: nat) {
    var m := |pieces|;
    && m > 0 && i + m <= |lines|
    && if m == 1 then Holds(lines[i], pieces[0])
       else
         && EndsWith(lines[i], pieces[0]) && lines[i + 1..i + m - 1] == pieces[1..m - 1]
         && StartsWith(lines[i + m - 1], pieces[m - 1])
  }

  /** The first such stretch from line `i` on. */
  function FirstStretch(lines: seq<string>, pieces: seq<string>, i: nat): (r: Option<nat>)
    requires i <= |lines|
    ensures r == None ==> forall k: nat :: i <= k ==> !StretchAt(lines, pieces, k)
    ensures r.Some? ==> i <= r.value && StretchAt(lines, pieces, r.value)
    ensures r.Some? ==> forall k: nat :: i <= k < r.value ==> !StretchAt(lines, pieces, k)
    decreases |lines| - i
  {
    if StretchAt(lines, pieces, i) then Some(i)
    else if i == |lines| then None
    else FirstStretch(lines, pieces, i + 1)
  }

  /** Its lines. */
  function StretchText(lines: seq<string>, pieces: seq<string>): Option<string> {
    match FirstStretch(lines, pieces, 0)
    case None => None
    case Some(k) => Some(Join(lines[k..k + |pieces|]))
  }

  /** The text of the lines before the one at `i`. */
  function HeadText(lines: seq<string>): string {
    if lines == [] then "" else Join(lines) + "\n"
  }

  lemma {:induction false} JoinAround(a: seq<string>, b: seq<string>, c: seq<string>)
    requires b != []
    ensures Join(a + b + c) == HeadText(a) + Join(b) + TailText(c)
  {
    JoinParts(a + b, c);
    if a == [] {
      assert a + b == b && "" + Join(b) == Join(b);
    } else {
      JoinAppend(a, b);
    }
  }

  /** A stretch of lines, as text: something, the quote, something. */
  lemma {:induction false} StretchHoldsQuote(stretch: seq<string>, quote: string) returns (u: string, v: string)
    requires |stretch| == |Split(quote)| && StretchAt(stretch, Split(quote), 0)
    ensures Join(stretch) == u + quote + v && |u| <= |stretch[0]|
  {
    hide Split;
    var pieces, m := Split(quote), |stretch|;
    JoinSplit(quote);
    if m == 1 {
      var l := stretch[0];
      var k := Find(l, pieces[0], 0);
      u, v := l[..k], l[k + |quote|..];
      assert pieces == [pieces[0]] && stretch == [l];
      assert l == l[..k] + l[k..k + |quote|] + l[k + |quote|..];
    } else {
      var first, last := stretch[0], stretch[m - 1];
      u, v := first[..|first| - |pieces[0]|], last[|pieces[m - 1]|..];
      var mid := pieces[1..m - 1];
      assert first == u + pieces[0] && last == pieces[m - 1] + v;
      assert stretch == [first] + mid + [last] && pieces == [pieces[0]] + mid + [pieces[m - 1]];
      JoinEnds(u, pieces[0], mid, pieces[m - 1], v);
    }
  }

  lemma {:induction false} JoinEnds(u: string, p: string, mid: seq<string>, q: string, v: string)
    ensures Join([u + p] + mid + [q + v]) == u + Join([p] + mid + [q]) + v
  {
    JoinCons(u + p, mid + [q + v]);
    JoinCons(p, mid + [q]);
    assert [u + p] + mid + [q + v] == [u + p] + (mid + [q + v]) && [p] + mid + [q] == [p] + (mid + [q]);
    JoinTail(mid, q, v);
    var j := Join(mid + [q]);
    assert u + p + "\n" + (j + v) == u + (p + "\n" + j) + v;
  }

  lemma {:induction false} JoinTail(mid: seq<string>, q: string, v: string)
    ensures Join(mid + [q + v]) == Join(mid + [q]) + v
  {
    if mid == [] {
      assert mid + [q + v] == [q + v] && mid + [q] == [q];
    } else {
      JoinAppend(mid, [q + v]);
      JoinAppend(mid, [q]);
    }
  }

  /** A stretch at line `i` is an occurrence of the quote that starts in that line, or at its end. */
  lemma {:induction false} StretchOccurs(lines: seq<string>, quote: string, i: nat) returns (j: nat)
    requires StretchAt(lines, Split(quote), i)
    ensures Occurs(Join(lines), quote, j) && j <= |HeadText(lines[..i])| + |lines[i]|
  {
    hide Split, Join, HeadText;
    var m := |Split(quote)|;
    var a, b, c := lines[..i], lines[i..i + m], lines[i + m..];
    assert lines == a + b + c;
    JoinAround(a, b, c);
    SameStretch(lines, Split(quote), i);
    var u, v := StretchHoldsQuote(b, quote);
    j := |HeadText(a)| + |u|;
    OccursPlaced(HeadText(a) + u, quote, v + TailText(c));
    assert HeadText(a) + (u + quote + v) + TailText(c) == (HeadText(a) + u) + quote + (v + TailText(c));
  }

  lemma {:induction false} SameStretch(lines: seq<string>, pieces: seq<string>, i: nat)
    requires StretchAt(lines, pieces, i)
    ensures StretchAt(lines[i..i + |pieces|], pieces, 0)
  {
    var m, b := |pieces|, lines[i..i + |pieces|];
    if m > 1 { SliceInSlice(lines, i, m); }
  }

  lemma {:induction false} SliceInSlice(lines: seq<string>, i: nat, m: nat)
    requires i + m <= |lines| && m > 1
    ensures lines[i..i + m][1..m - 1] == lines[i + 1..i + m - 1]
  {
    var x, y := lines[i..i + m][1..m - 1], lines[i + 1..i + m - 1];
    forall k | 0 <= k < m - 2 ensures x[k] == y[k] { assert x[k] == lines[i..i + m][k + 1]; }
  }

  lemma {:induction false} OccursPlaced(a: string, q: string, b: string)
    ensures Occurs(a + q + b, q, |a|)
  {
    CutInThree(a + q + b, a, q, b);
  }

  /** The located region starts with the end of the line before the quote, and ends with that of the line after it. */
  lemma {:induction false} RegionIsStretch(t: string, quote: string)
    requires QuoteSpan(t, quote).Some?
    ensures var s := QuoteSpan(t, quote).value;
      var lines := Split(t[s.start..s.end]);
      |lines| == |Split(quote)| && StretchAt(lines, Split(quote), 0)
  {
    hide Split;
    var s, idx := QuoteSpan(t, quote).value, Find(t, quote, 0);
    var u, v := t[s.start..idx], t[idx + |quote|..s.end];
    QuoteInSpan(t, quote);
    ThreeSlices(t, s.start, idx, idx + |quote|, s.end);
    NoBreakBetween(t, s.start, idx);
    NoBreakBetween(t, idx + |quote|, s.end);
    StretchAround(u, quote, v);
  }

  lemma {:induction false} QuoteInSpan(t: string, quote: string)
    requires QuoteSpan(t, quote).Some?
    ensures var s, idx := QuoteSpan(t, quote).value, Find(t, quote, 0);
      && s.start <= idx && idx + |quote| <= s.end && t[idx..idx + |quote|] == quote
      && (forall k :: s.start <= k < idx ==> t[k] != '\n')
      && (forall k :: idx + |quote| <= k < s.end ==> t[k] != '\n')
  {
  }

  lemma {:induction false} ThreeSlices(t: string, a: nat, b: nat, c: nat, d: nat)
    requires a <= b <= c <= d <= |t|
    ensures t[a..d] == t[a..b] + t[b..c] + t[c..d]
  {
  }

  lemma {:induction false} NoBreakBetween(t: string, i: nat, j: nat)
    requires i <= j <= |t| && forall k :: i <= k < j ==> t[k] != '\n'
    ensures '\n' !in t[i..j]
  {
  }

  lemma {:induction false} StretchAround(u: string, quote: string, v: string)
    requires '\n' !in u && '\n' !in v
    ensures var lines, pieces := Split(u + quote + v), Split(quote);
      |lines| == |pieces| && StretchAt(lines, pieces, 0)
  {
    hide Split;
    var pieces := Split(quote);
    var m := |pieces|;
    SplitPrefix(u, quote);
    SplitConcat(u + quote, v);
    SplitSingle(v);
    var lines := Split(u + quote + v);
    if m == 1 {
      assert lines == [u + pieces[0] + v];
      OccursPlaced(u, pieces[0], v);
    } else {
      assert lines == [u + pieces[0]] + pieces[1..m - 1] + [pieces[m - 1] + v];
      CutAt(lines[0], u, pieces[0]);
    }
  }

  /** Locating a quote is finding the first stretch of lines that holds its pieces. */
  lemma {:induction false} LocateIsFirstStretch(t: string, quote: string)
    ensures VerbatimLocate(t, Some(quote)) == StretchText(Split(t), Split(quote))
  {
    hide Split, Join, StretchAt, WholeLines, FirstStretch;
    if QuoteSpan(t, quote) == None {
      forall k: nat ensures !StretchAt(Split(t), Split(quote), k) { NoQuoteNoStretch(t, quote, k); }
      NoStretch(Split(t), Split(quote));
    } else {
      LocatedIsFirst(t, quote);
    }
  }

  lemma {:induction false} NoQuoteNoStretch(t: string, quote: string, k: nat)
    requires QuoteSpan(t, quote) == None
    ensures !StretchAt(Split(t), Split(quote), k)
  {
    hide Split, Join, StretchAt, HeadText;
    if StretchAt(Split(t), Split(quote), k) {
      JoinSplit(t);
      var j := StretchOccurs(Split(t), quote, k);
      assert false;
    }
  }

  lemma {:induction false} LocatedIsFirst(t: string, quote: string)
    requires QuoteSpan(t, quote).Some?
    ensures var s := QuoteSpan(t, quote).value;
      StretchText(Split(t), Split(quote)) == Some(t[s.start..s.end])
  {
    hide Split, Join, StretchAt, LinesOfHead, LinesOfTail, FirstStretch, QuoteSpan;
    var lines, pieces := Split(t), Split(quote);
    var s := QuoteSpan(t, quote).value;
    SpanIsWhole(t, quote);
    var pre, region, post := t[..s.start], t[s.start..s.end], t[s.end..];
    var head, own, tail := LinesOfHead(pre), Split(region), LinesOfTail(post);
    assert t == pre + region + post;
    SplitAround(pre, region, post);
    RegionIsStretch(t, quote);
    StretchLater(head, own, tail, pieces);
    HeadIsPrefix(head, own, tail);
    forall k: nat | k < |head| ensures !StretchAt(lines, pieces, k) { NoStretchBefore(t, quote, k); }
    StretchIsFirst(lines, pieces, |head|);
    CutInThree(lines, head, own, tail);
    JoinSplit(region);
  }

  /** No stretch starts in a line before the located region. */
  lemma {:induction false} NoStretchBefore(t: string, quote: string, k: nat)
    requires QuoteSpan(t, quote).Some?
    requires var head := LinesOfHead(t[..QuoteSpan(t, quote).value.start]); k < |head| && head <= Split(t)
    ensures !StretchAt(Split(t), Split(quote), k)
  {
    hide Split, Join, StretchAt, LinesOfHead, HeadText, WholeLines;
    var lines := Split(t);
    if StretchAt(lines, Split(quote), k) {
      JoinSplit(t);
      var j := StretchOccurs(lines, quote, k);
      HeadLineEnds(t[..QuoteSpan(t, quote).value.start], lines, k);
      SpanIsWhole(t, quote);
      assert false;
    }
  }

  lemma {:induction false} HeadIsPrefix(head: seq<string>, own: seq<string>, tail: seq<string>)
    ensures head <= head + own + tail
  {
  }

  lemma {:induction false} NoStretch(lines: seq<string>, pieces: seq<string>)
    requires forall k: nat :: !StretchAt(lines, pieces, k)
    ensures FirstStretch(lines, pieces, 0) == None
  {
  }

  lemma {:induction false} StretchIsFirst(lines: seq<string>, pieces: seq<string>, i: nat)
    requires StretchAt(lines, pieces, i) && i <= |lines| && forall k: nat :: k < i ==> !StretchAt(lines, pieces, k)
    ensures FirstStretch(lines, pieces, 0) == Some(i)
  {
  }

  lemma {:induction false} SpanIsWhole(t: string, quote: string)
    requires QuoteSpan(t, quote).Some?
    ensures var s := QuoteSpan(t, quote).value;
      && s.start <= s.end <= |t| && s.start <= Find(t, quote, 0)
      && (s.start == 0 || t[s.start - 1] == '\n') && (s.end == |t| || t[s.end] == '\n')
  {
  }

  lemma {:induction false} StretchLater(head: seq<string>, own: seq<string>, tail: seq<string>, pieces: seq<string>)
    requires |own| == |pieces| && StretchAt(own, pieces, 0)
    ensures StretchAt(head + own + tail, pieces, |head|)
  {
    var lines, i, m := head + own + tail, |head|, |pieces|;
    assert forall k :: 0 <= k < m ==> lines[i + k] == own[k];
    if m > 1 { assert lines[i + 1..i + m - 1] == own[1..m - 1]; }
  }

  /** A line of the head ends before the head does. */
  lemma {:induction false} HeadLineEnds(pre: string, lines: seq<string>, k: nat)
    requires k < |LinesOfHead(pre)| && LinesOfHead(pre) <= lines
    ensures |HeadText(lines[..k])| + |lines[k]| < |pre|
  {
    hide Split, Join;
    var head := LinesOfHead(pre);
    JoinSplit(pre[..|pre| - 1]);
    assert head == head[..k] + [head[k]] + head[k + 1..] && lines[..k] == head[..k];
    JoinAround(head[..k], [head[k]], head[k + 1..]);
    JoinOne(head[k]);
  }

  lemma {:induction false} JoinOne(l: string)
    ensures Join([l]) == l
  {
  }

  // ----- when a rewritten line is noticed -----

  /** Whatever was edited, the verdict on a quote of one line rests on the first line that holds it, and on no other:
      clean when that line reads the same in base and file, orphaned when the file has none. */
  lemma {:induction false} VerdictByFirstLine(base: string, head: string, quote: string, hash: Hash)
    requires Injective(hash) && '\n' !in quote
    ensures var v := DetectConflict(base, head, Some(quote), hash);
      var now := FirstLine(Split(head), quote);
      && (v == Clean <==> now.Some? && now == FirstLine(Split(base), quote))
      && (v == Orphan <==> now == None)
  {
    hide DetectConflict, VerbatimLocate, FirstLine;
    LocateIsFirstLine(base, quote);
    LocateIsFirstLine(head, quote);
    LocatedIffSpan(head, quote);
    VerdictMeaning(base, head, quote, hash);
  }

  /** Somebody put the quoted line of the base in the form `r`.  The verdict is conflicted, orphaned or clean by the
      first line that now holds the quote, in `r` or after it: it differs, there is none, or it reads as before. */
  lemma {:induction false} VerdictAfterRewrite(base: string, quote: string, r: string, hash: Hash)
    requires Injective(hash) && '\n' !in quote && QuoteSpan(base, quote).Some?
    ensures var v := DetectConflict(base, Rewritten(base, quote, r), Some(quote), hash);
      var now := FirstLine(Split(r) + LinesAfter(base, quote), quote);
      && (v == Clean <==> now == VerbatimLocate(base, Some(quote)))
      && (v == Orphan <==> now == None)
  {
    hide DetectConflict, VerbatimLocate, FirstLine;
    var head := Rewritten(base, quote, r);
    EditedLines(base, quote, r);
    LocateIsFirstLine(head, quote);
    LocatedIffSpan(base, quote);
    LocatedIffSpan(head, quote);
    VerdictMeaning(base, head, quote, hash);
  }

  lemma {:induction false} LocatedIffSpan(t: string, quote: string)
    ensures VerbatimLocate(t, Some(quote)).Some? <==> QuoteSpan(t, quote).Some?
    ensures VerbatimLocate(t, Some(quote)) == None <==> forall j :: !Occurs(t, quote, j)
  {
  }

  /** Whatever was edited, and whatever the quote: the verdict rests on the first stretch of lines that holds it. */
  lemma {:induction false} VerdictByFirstStretch(base: string, head: string, quote: string, hash: Hash)
    requires Injective(hash)
    ensures var v := DetectConflict(base, head, Some(quote), hash);
      var now := StretchText(Split(head), Split(quote));
      && (v == Clean <==> now.Some? && now == StretchText(Split(base), Split(quote)))
      && (v == Orphan <==> now == None)
  {
    hide DetectConflict, VerbatimLocate, StretchText;
    LocateIsFirstStretch(base, quote);
    LocateIsFirstStretch(head, quote);
    LocatedIffSpan(head, quote);
    VerdictMeaning(base, head, quote, hash);
  }

  /** The lines of a text with the located ones put in another form. */
  function RewrittenLines(t: string, quote: string, r: string): seq<string>
    requires QuoteSpan(t, quote).Some?
  {
    LinesOfHead(t[..QuoteSpan(t, quote).value.start]) + (Split(r) + LinesAfter(t, quote))
  }

  lemma {:induction false} SplitRewritten(t: string, quote: string, r: string)
    requires QuoteSpan(t, quote).Some?
    ensures Split(Rewritten(t, quote, r)) == RewrittenLines(t, quote, r)
  {
    var s := QuoteSpan(t, quote).value;
    SplitAround(t[..s.start], r, t[s.end..]);
    Assoc(LinesOfHead(t[..s.start]), Split(r), LinesOfTail(t[s.end..]));
  }

  /** Somebody put the lines of a quote, of any number of lines, in the form `r`.  The verdict goes by the first stretch
      that holds the quote among the lines before, in `r` and after it. */
  lemma {:induction false} VerdictAfterAnyRewrite(base: string, quote: string, r: string, hash: Hash)
    requires Injective(hash) && QuoteSpan(base, quote).Some?
    ensures var v := DetectConflict(base, Rewritten(base, quote, r), Some(quote), hash);
      var now := StretchText(RewrittenLines(base, quote, r), Split(quote));
      && (v == Clean <==> now == VerbatimLocate(base, Some(quote)))
      && (v == Orphan <==> now == None)
  {
    hide DetectConflict, VerbatimLocate, StretchText, RewrittenLines, Rewritten;
    SplitRewritten(base, quote, r);
    VerdictByFirstStretch(base, Rewritten(base, quote, r), quote, hash);
    LocateIsFirstStretch(base, quote);
    LocatedIffSpan(base, quote);
  }

  /** Such a rewrite that goes unnoticed: the line below reads as the quoted one did.  The request is let through and
      overwrites that line, while the line a person changed is kept. */
  lemma {:induction false} RewriteGoesUnnoticed(hash: Hash)
    requires Injective(hash)
    ensures var base, head := "foo\nfoo\n", "bar\nfoo\n";
      && DetectConflict(base, head, Some("foo"), hash) == Clean
      && VerbatimLocate(head, Some("foo")) == Some("foo")
      && ApplyModification(head, "foo", "new") == "bar\nnew\n"
  {
    hide DetectConflict, VerbatimLocate, ApplyModification, Holds;
    var base, head := "foo\nfoo\n", "bar\nfoo\n";
    assert "bar"[0] != "foo"[0];
    NotIn("foo", "bar");
    SecondLineStandsIn("foo", "bar", base, head, hash);
    ReplaceSecond(head, "bar\n", "foo", "\n", "new");
  }

  lemma {:induction false} NotIn(quote: string, line: string)
    requires |line| == |quote| && line != quote
    ensures !Holds(line, quote)
  {
    TakeDrop(line, |line|);
  }

  /** A line stands twice and its first copy is rewritten: the second copy is taken for the first. */
  lemma {:induction false} SecondLineStandsIn(q: string, x: string, base: string, head: string, hash: Hash)
    requires Injective(hash) && '\n' !in q && '\n' !in x && !Holds(x, q)
    requires base == q + "\n" + q + "\n" && head == x + "\n" + q + "\n"
    ensures DetectConflict(base, head, Some(q), hash) == Clean && VerbatimLocate(head, Some(q)) == Some(q)
    ensures DetectConflict(base, base, Some(q), hash) == Clean && VerbatimLocate(base, Some(q)) == Some(q)
  {
    hide DetectConflict, VerbatimLocate, QuoteSpan;
    ThreeLines(q, q);
    ThreeLines(x, q);
    FindIs(q, q, 0, 0);
    FirstOfLine(q, [q, ""], q);
    FirstOfLine(q, [""], q);
    FirstLineAppend([x], [q] + [""], q);
    assert [x, q, ""] == [x] + ([q] + [""]);
    LocateIsFirstLine(base, q);
    LocateIsFirstLine(head, q);
    LocatedIffSpan(base, q);
    LocatedIffSpan(head, q);
    VerdictMeaning(base, head, q, hash);
    VerdictMeaning(base, base, q, hash);
  }

  lemma {:induction false} ThreeLines(a: string, b: string)
    requires '\n' !in a && '\n' !in b
    ensures Split(a + "\n" + b + "\n") == [a, b, ""]
  {
    SplitAppend(a + "\n" + b, "");
    SplitAppend(a, b);
    SplitSingle(a);
    SplitSingle(b);
    assert a + "\n" + b + "\n" + "" == a + "\n" + b + "\n";
  }

  /** Replacing a text whose first character is new replaces its first occurrence. */
  lemma {:induction false} ReplaceSecond(t: string, pre: string, region: string, post: string, body: string)
    requires t == pre + region + post && region != "" && region[0] !in pre && StripNewlines(body) == body
    ensures ApplyModification(t, region, body) == pre + body + post
  {
    CutInThree(t, pre, region, post);
    forall j | 0 <= j < |pre| ensures !Occurs(t, region, j) {
      assert t[j] == pre[j] && t[j] != region[0];
    }
    FindIs(t, region, 0, |pre|);
  }

  // ----- applying once more -----

  /** The text of the base version a request was written against. */
  function BaseOf(db: Db, id: nat): string
    requires id < |db.requests|
  {
    VersionContent(db, db.requests[id].goal, db.requests[id].baseVersion)
  }

  function QuoteOf(db: Db, a: ApplyArgs): Option<string>
    requires a.id < |db.requests|
  {
    Or(a.quoteOverride, db.requests[a.id].targetQuote)
  }

  /** What a finished apply leaves: the file, the request but for its status, and the versions it built on. */
  lemma {:induction false} AfterFinished(db: Db, a: ApplyArgs, hash: Hash)
    requires Injective(hash) && Proceeds(db, a, hash)
    ensures var after := Apply(db, a, NoStop, hash).0;
      var goal := db.requests[a.id].goal;
      && |after.requests| == |db.requests|
      && after.requests[a.id] == db.requests[a.id].(status := Applied)
      && after.files == db.files[goal := PlannedWrite(db, a).value.after]
      && VersionsOf(db, goal) <= VersionsOf(after, goal)
  {
    hide PlannedWrite, DetectConflict, Apply, CreateNext;
    var goal, w := db.requests[a.id].goal, PlannedWrite(db, a).value;
    ApplyProceeds(db, a, NoStop, hash);
    PlannedWriteIsTheRequests(db, a);
    CreateNextRecords(CommitFile(db, w, goal), goal, w.after, hash);
  }

  lemma {:induction false} PlannedWriteIsTheRequests(db: Db, a: ApplyArgs)
    requires a.id < |db.requests| && db.requests[a.id].goal in db.files && PlannedWrite(db, a).Some?
    ensures PlannedWrite(db, a).value.request == a.id
  {
  }

  /** The status of a request is not looked at, so any request can go through again: it does exactly when it has no
      quote, or its own edit left the quote on lines that read as in the base version. */
  lemma {:induction false} GoesThroughAgain(db: Db, a: ApplyArgs, hash: Hash)
    requires Injective(hash) && Proceeds(db, a, hash)
    ensures var after, quote := Apply(db, a, NoStop, hash).0, QuoteOf(db, a);
      var text := PlannedWrite(db, a).value.after;
      && a.id < |after.requests|
      && (Proceeds(after, a, hash)
          <==> quote == None
               || (VerbatimLocate(text, quote).Some?
                   && VerbatimLocate(BaseOf(after, a.id), quote) == VerbatimLocate(text, quote)))
  {
    hide Apply, DetectConflict, VerbatimLocate, AdditionResult, ApplyModification;
    AfterFinished(db, a, hash);
    var after, quote := Apply(db, a, NoStop, hash).0, QuoteOf(db, a);
    var text := PlannedWrite(db, a).value.after;
    if quote.Some? {
      LocatedIffSpan(text, quote.value);
      VerdictMeaning(BaseOf(after, a.id), text, quote.value, hash);
    } else {
      NoQuoteIsClean(BaseOf(after, a.id), text, hash);
      NoQuoteIsClean(BaseOf(db, a.id), PlannedWrite(db, a).value.before, hash);
    }
  }

  lemma {:induction false} NoQuoteIsClean(base: string, head: string, hash: Hash)
    ensures DetectConflict(base, head, None, hash) == Clean && VerbatimLocate(head, None) == None
  {
  }

  /** A base version that was on record before is the same afterwards. */
  lemma {:induction false} BaseStays(db: Db, a: ApplyArgs, hash: Hash)
    requires Injective(hash) && Proceeds(db, a, hash)
    requires db.requests[a.id].baseVersion <= |VersionsOf(db, db.requests[a.id].goal)|
    ensures var after := Apply(db, a, NoStop, hash).0;
      a.id < |after.requests| && BaseOf(after, a.id) == BaseOf(db, a.id)
  {
    hide Apply, PlannedWrite, DetectConflict;
    AfterFinished(db, a, hash);
    var goal, after := db.requests[a.id].goal, Apply(db, a, NoStop, hash).0;
    if goal in db.versions && db.versions[goal] != [] { assert VersionsOf(after, goal) != []; }
  }

  /** The line the base version has for a request's quote, after a finished apply. */
  function BaseLine(after: Db, a: ApplyArgs): Option<string>
    requires a.id < |after.requests|
  {
    VerbatimLocate(BaseOf(after, a.id), QuoteOf(after, a))
  }

  /** For a base version on record that line is the one the apply found in the file. */
  lemma {:induction false} BaseLineIsRegion(db: Db, a: ApplyArgs, hash: Hash)
    requires Injective(hash) && Proceeds(db, a, hash)
    requires db.requests[a.id].baseVersion <= |VersionsOf(db, db.requests[a.id].goal)|
    ensures var after := Apply(db, a, NoStop, hash).0;
      a.id < |after.requests| && BaseLine(after, a) == VerbatimLocate(db.files[db.requests[a.id].goal], QuoteOf(db, a))
  {
    hide Apply, PlannedWrite, DetectConflict, VerbatimLocate;
    AfterFinished(db, a, hash);
    BaseStays(db, a, hash);
    var quote, head := QuoteOf(db, a), db.files[db.requests[a.id].goal];
    if quote.Some? {
      VerdictMeaning(BaseOf(db, a.id), head, quote.value, hash);
    } else {
      NoQuoteIsClean(BaseOf(db, a.id), head, hash);
      NoQuoteIsClean(head, BaseOf(db, a.id), hash);
    }
  }

  /** A modification with a quote of one line goes through again exactly when the first line that holds the quote, in
      its own body or after the lines it replaced, reads as in the base version. */
  lemma {:induction false} ModificationGoesThroughAgain(db: Db, a: ApplyArgs, quote: string, hash: Hash)
    requires Injective(hash) && Proceeds(db, a, hash)
    requires db.requests[a.id].kind != Addition && QuoteOf(db, a) == Some(quote) && '\n' !in quote
    ensures var cr, after := db.requests[a.id], Apply(db, a, NoStop, hash).0;
      && QuoteSpan(db.files[cr.goal], quote).Some?
      && a.id < |after.requests|
      && var now := FirstLine(Split(StripNewlines(cr.proposedBody)) + LinesAfter(db.files[cr.goal], quote), quote);
         Proceeds(after, a, hash) <==> now.Some? && now == BaseLine(after, a)
  {
    hide Apply, DetectConflict, PlannedWrite, ApplyModification, FirstLine, QuoteSpan;
    var cr := db.requests[a.id];
    var text := PlannedWrite(db, a).value.after;
    WrittenModification(db, a, quote, hash);
    GoesThroughAgain(db, a, hash);
    AfterFinished(db, a, hash);
    EditedLines(db.files[cr.goal], quote, StripNewlines(cr.proposedBody));
    LocateIsFirstLine(text, quote);
  }

  lemma {:induction false} WrittenModification(db: Db, a: ApplyArgs, quote: string, hash: Hash)
    requires Injective(hash) && Proceeds(db, a, hash)
    requires db.requests[a.id].kind != Addition && QuoteOf(db, a) == Some(quote)
    ensures var cr := db.requests[a.id];
      && QuoteSpan(db.files[cr.goal], quote).Some?
      && PlannedWrite(db, a).value.after == Rewritten(db.files[cr.goal], quote, StripNewlines(cr.proposedBody))
  {
    hide DetectConflict, ApplyModification, QuoteSpan;
    var cr := db.requests[a.id];
    ModificationText(db.files[cr.goal], quote, cr.proposedBody);
  }

  /** Where an addition puts its lines: after so many lines of the text. */
  function AddedAfter(content: string, body: string, hint: Option<string>): (n: nat)
    ensures n <= |Split(content)|
  {
    var lines := Split(content);
    if hint.Some? && hint.value != "" && InsertionPoint(lines, hint.value).Some? then
      InsertionPoint(lines, hint.value).value + 1
    else if content == "" || content[|content| - 1] == '\n' then |lines| - 1
    else |lines|
  }

  /** A text whose last line has no end gets one. */
  function EndedBy(content: string, hint: Option<string>): seq<string> {
    if hint.Some? && hint.value != "" && InsertionPoint(Split(content), hint.value).Some? then []
    else if content == "" || content[|content| - 1] == '\n' then []
    else [""]
  }

  /** The lines of a text after an addition. */
  function AddedLines(content: string, proposedBody: string, hint: Option<string>): seq<string> {
    var lines, n := Split(content), AddedAfter(content, proposedBody, hint);
    lines[..n] + Split(StripNewlines(proposedBody)) + lines[n..] + EndedBy(content, hint)
  }

  /** An addition's lines stand among those of the text; a last line without an end gets one. */
  lemma {:induction false} AdditionLines(content: string, proposedBody: string, hint: Option<string>)
    ensures Split(AdditionResult(content, proposedBody, hint)) == AddedLines(content, proposedBody, hint)
    ensures EndedBy(content, hint) == [] || EndedBy(content, hint) == [""]
  {
    hide Split, InsertionPoint, StripNewlines, SpliceAfter, CutAfter;
    var lines, body := Split(content), StripNewlines(proposedBody);
    if hint.Some? && hint.value != "" && InsertionPoint(lines, hint.value).Some? {
      SplicedLines(content, InsertionPoint(lines, hint.value).value, body);
    } else if content == "" || content[|content| - 1] == '\n' {
      AppendedToLine(content, body);
    } else {
      AppendedAfterLine(content, body);
      assert lines[..|lines|] == lines && lines + Split(body) + [] == lines + Split(body);
    }
  }

  lemma {:induction false} AppendedAfterLine(content: string, body: string)
    ensures Split(content + ("\n" + body + "\n")) == Split(content) + Split(body) + [""]
  {
    hide Split;
    SplitAppend(content, body + "\n");
    SplitAppend(body, "");
    Assoc(content, "\n", body + "\n");
    assert "\n" + (body + "\n") == "\n" + body + "\n" && body + "\n" + "" == body + "\n";
    SplitSingle("");
    Assoc(Split(content), Split(body), [""]);
  }

  lemma {:induction false} AppendedToLine(content: string, body: string)
    requires content == "" || content[|content| - 1] == '\n'
    ensures var lines := Split(content);
      Split(content + (body + "\n")) == lines[..|lines| - 1] + Split(body) + lines[|lines| - 1..]
  {
    hide Split;
    SplitSingle("");
    SplitAfterHead(content, "");
    assert content + "" == content;
    CutAt(Split(content), LinesOfHead(content), [""]);
    SplitAfterHead(content, body + "\n");
    SplitAppend(body, "");
    assert body + "\n" + "" == body + "\n";
    Assoc(LinesOfHead(content), Split(body), [""]);
  }

  /** An addition with a quote of one line goes through again exactly when the first line that holds the quote, among
      the lines above the added ones, those added, and those below, reads as in the base version. */
  lemma {:induction false} AdditionGoesThroughAgain(db: Db, a: ApplyArgs, quote: string, hash: Hash)
    requires Injective(hash) && Proceeds(db, a, hash)
    requires db.requests[a.id].kind == Addition && QuoteOf(db, a) == Some(quote) && '\n' !in quote
    ensures var cr, after := db.requests[a.id], Apply(db, a, NoStop, hash).0;
      var lines, body := Split(db.files[cr.goal]), StripNewlines(cr.proposedBody);
      var n := AddedAfter(db.files[cr.goal], cr.proposedBody, Or(a.hintOverride, cr.sectionHint));
      && a.id < |after.requests|
      && var now := FirstLine(lines[..n] + Split(body) + lines[n..], quote);
         Proceeds(after, a, hash) <==> now.Some? && now == BaseLine(after, a)
  {
    hide Apply, DetectConflict, PlannedWrite, AdditionResult, Split, AddedAfter, FirstLine, StripNewlines;
    var cr := db.requests[a.id];
    var hint, text := Or(a.hintOverride, cr.sectionHint), PlannedWrite(db, a).value.after;
    WrittenAddition(db, a, hash);
    GoesThroughAgain(db, a, hash);
    AfterFinished(db, a, hash);
    LocateIsFirstLine(text, quote);
    AdditionLines(db.files[cr.goal], cr.proposedBody, hint);
    var lines, n := Split(db.files[cr.goal]), AddedAfter(db.files[cr.goal], cr.proposedBody, hint);
    var with := lines[..n] + Split(StripNewlines(cr.proposedBody)) + lines[n..];
    assert with + [] == with;
    EmptyLineLast(with, quote);
  }

  lemma {:induction false} WrittenAddition(db: Db, a: ApplyArgs, hash: Hash)
    requires Proceeds(db, a, hash) && db.requests[a.id].kind == Addition
    ensures var cr := db.requests[a.id];
      PlannedWrite(db, a).value.after
      == AdditionResult(db.files[cr.goal], cr.proposedBody, Or(a.hintOverride, cr.sectionHint))
  {
  }

  /** An empty line at the end is never the first to hold a quote. */
  lemma {:induction false} EmptyLineLast(lines: seq<string>, quote: string)
    requires lines != []
    ensures FirstLine(lines + [""], quote) == FirstLine(lines, quote)
  {
    FirstLineAppend(lines, [""], quote);
    if quote == "" {
      EmptyQuote(lines[0]);
      assert lines == [lines[0]] + lines[1..];
    } else {
      assert !Holds("", quote);
    }
  }

  lemma {:induction false} EmptyQuote(l: string)
    ensures Holds(l, "")
  {
    assert l[0..0] == "";
    FindIs(l, "", 0, 0);
  }

  /** The lines of the file after a request that goes through was applied. */
  function LinesWritten(db: Db, a: ApplyArgs, quote: string): seq<string>
    requires a.id < |db.requests| && db.requests[a.id].goal in db.files
    requires db.requests[a.id].kind != Addition ==> QuoteSpan(db.files[db.requests[a.id].goal], quote).Some?
  {
    var cr := db.requests[a.id];
    var before := db.files[cr.goal];
    if cr.kind == Addition then AddedLines(before, cr.proposedBody, Or(a.hintOverride, cr.sectionHint))
    else RewrittenLines(before, quote, StripNewlines(cr.proposedBody))
  }

  /** A request with a quote of any number of lines goes through again exactly when the first stretch that holds it,
      among the lines its own apply wrote and kept, reads as in the base version. */
  lemma {:induction false} QuotedGoesThroughAgain(db: Db, a: ApplyArgs, quote: string, hash: Hash)
    requires Injective(hash) && Proceeds(db, a, hash) && QuoteOf(db, a) == Some(quote)
    ensures var after := Apply(db, a, NoStop, hash).0;
      && (db.requests[a.id].kind != Addition ==> QuoteSpan(db.files[db.requests[a.id].goal], quote).Some?)
      && a.id < |after.requests|
      && var now := StretchText(LinesWritten(db, a, quote), Split(quote));
         Proceeds(after, a, hash) <==> now.Some? && now == BaseLine(after, a)
  {
    hide Apply, DetectConflict, PlannedWrite, ApplyModification, AdditionResult, StretchText, QuoteSpan, Split,
      Rewritten, AddedLines, RewrittenLines, StripNewlines;
    var cr := db.requests[a.id];
    var text := PlannedWrite(db, a).value.after;
    GoesThroughAgain(db, a, hash);
    AfterFinished(db, a, hash);
    LocateIsFirstStretch(text, quote);
    if cr.kind == Addition {
      WrittenAddition(db, a, hash);
      AdditionLines(db.files[cr.goal], cr.proposedBody, Or(a.hintOverride, cr.sectionHint));
    } else {
      WrittenModification(db, a, quote, hash);
      SplitRewritten(db.files[cr.goal], quote, StripNewlines(cr.proposedBody));
    }
  }

  /** What one modification does to the file its quote is clean in. */
  lemma {:induction false} ModifiesOnce(db: Db, a: ApplyArgs, region: string, hash: Hash)
    requires Injective(hash) && a.id < |db.requests| && a.inTree
    requires db.requests[a.id].goal in db.files && db.requests[a.id].kind != Addition
    requires DetectConflict(BaseOf(db, a.id), db.files[db.requests[a.id].goal], QuoteOf(db, a), hash) == Clean
    requires VerbatimLocate(db.files[db.requests[a.id].goal], QuoteOf(db, a)) == Some(region)
    ensures Proceeds(db, a, hash)
    ensures var cr, (after, outcome) := db.requests[a.id], Apply(db, a, NoStop, hash);
      && outcome.Done?
      && after.files == db.files[cr.goal := ApplyModification(db.files[cr.goal], region, cr.proposedBody)]
  {
    hide DetectConflict, VerbatimLocate, ApplyModification, Apply, CreateNext;
    ApplyProceeds(db, a, NoStop, hash);
    AfterFinished(db, a, hash);
  }

  /** Such a request: its quoted line stands twice, so the second apply overwrites the other copy as well. */
  lemma {:induction false} SecondApplyHitsAnotherLine(cr: ChangeRequest, hash: Hash)
    requires Injective(hash)
    requires cr == ChangeRequest("g", Modification, "bar", 1, Some("foo"), None, Proposed)
    ensures var db := Empty.(requests := [cr], files := map["g" := "foo\nfoo\n"],
                             versions := map["g" := ["foo\nfoo\n"]]);
      var a := ApplyArgs(0, true, None, None);
      var once := Apply(db, a, NoStop, hash);
      var twice := Apply(once.0, a, NoStop, hash);
      && once.1.Done? && once.0.files == map["g" := "bar\nfoo\n"]
      && twice.1.Done? && twice.0.files == map["g" := "bar\nbar\n"]
  {
    hide DetectConflict, VerbatimLocate, ApplyModification, Apply, Proceeds, Holds;
    var base, head := "foo\nfoo\n", "bar\nfoo\n";
    var db := Empty.(requests := [cr], files := map["g" := base], versions := map["g" := [base]]);
    var a := ApplyArgs(0, true, None, None);
    assert "bar"[0] != "foo"[0];
    NotIn("foo", "bar");
    SecondLineStandsIn("foo", "bar", base, head, hash);
    ReplaceSecond(base, "", "foo", "\nfoo\n", "bar");
    ReplaceSecond(head, "bar\n", "foo", "\n", "bar");
    assert "" + "bar" + "\nfoo\n" == head && "bar\n" + "bar" + "\n" == "bar\nbar\n";
    assert BaseOf(db, 0) == base && QuoteOf(db, a) == Some("foo");
    ModifiesOnce(db, a, "foo", hash);
    BaseStays(db, a, hash);
    AfterFinished(db, a, hash);
    ModifiesOnce(Apply(db, a, NoStop, hash).0, a, "foo", hash);
  }
}
