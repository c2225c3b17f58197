/** The fragment format of update mode (`block_splice.parse_fragments`). */
module Fragments {
  import opened Text

  // What the parser reads back from delimited fragments, with any text between them, and what every parsed body
  // is like.

  /** The three delimiters around a fragment's header and body. */
  datatype Markers = Markers(open: string, headEnd: string, close: string)

  const MARKERS := Markers("<!-- RR-FRAGMENT", "-->", "<!-- /RR-FRAGMENT -->")

  ghost predicate Free(s: string, m: string) {
    forall i :: !Occurs(s, m, i)
  }

  /** The first character of `m` stands nowhere else in it. */
  predicate HeadUnique(m: string) {
    m != "" && m[0] !in m[1..]
  }

  /** The last character of `m` stands nowhere else in it. */
  predicate LastUnique(m: string) {
    m != "" && m[|m| - 1] !in m[..|m| - 1]
  }

  /** No delimiter can straddle the end of what stands before it. */
  predicate WellMade(m: Markers) {
    HeadUnique(m.open) && LastUnique(m.headEnd) && HeadUnique(m.close)
  }

  lemma {:induction false} MarkersAreWellMade()
    ensures WellMade(MARKERS)
  {
    hide HeadUnique, LastUnique;
    OpenMarker();
    HeadEndMarker();
    CloseMarker();
  }

  lemma {:induction false} OpenMarker()
    ensures HeadUnique("<!-- RR-FRAGMENT")
  {
    assert "<!-- RR-FRAGMENT"[1..] == "!-- RR-FRAGMENT";
  }

  lemma {:induction false} HeadEndMarker()
    ensures LastUnique("-->")
  {
    assert "-->"[..2] == "--";
  }

  lemma {:induction false} CloseMarker()
    ensures HeadUnique("<!-- /RR-FRAGMENT -->")
  {
    assert "<!-- /RR-FRAGMENT -->"[1..] == "!-- /RR-FRAGMENT -->";
  }

  // ----- the header -----

  predicate IsQuote(c: char) { c == '"' || c == '\'' }

  /** The characters up to the first white space: `rest.split()[0]` once white space is trimmed on the left. */
  function FirstWord(s: string): string {
    if s == "" || IsSpace(s[0]) then "" else [s[0]] + FirstWord(s[1..])
  }

  /** The value of the header's `ref` attribute, or None without one. */
  function RefValue(header: string): Option<string> {
    var eq := Find(header, "ref", 0);
    if eq == -1 then None
    else
      var rest := TrimLeft(header[eq + 3..], IsSpace);
      if rest == "" || rest[0] != '=' then None
      else Some(Unquoted(TrimLeft(rest[1..], IsSpace)))
  }

  function Unquoted(rest: string): string {
    if rest != "" && IsQuote(rest[0]) then
      var end := Find(rest, [rest[0]], 1);
      if end != -1 then rest[1..end] else rest[1..]
    else FirstWord(rest)
  }

  /** The ref a header carries; `firstId` gives the first canonical id in a text. */
  function RefFromHeader(firstId: string -> Option<string>, header: string): Option<string> {
    var value := RefValue(header);
    if value.Some? then firstId(value.value) else None
  }

  /** The header the renderer is told to write. */
  function HeaderOf(ref: string): string {
    " ref=\"" + ref + "\" "
  }

  lemma {:induction false} HeaderRoundTrip(firstId: string -> Option<string>, ref: string)
    requires '"' !in ref
    ensures RefFromHeader(firstId, HeaderOf(ref)) == firstId(ref)
  {
    var h := HeaderOf(ref);
    assert h[0] == ' ' && h[1..4] == "ref" && h[4] == '=' && h[5] == '"';
    assert h[0..3] != "ref" by { assert h[0..3][0] == ' '; }
    FindIs(h, "ref", 0, 1);
    var rest := h[4..];
    assert TrimLeft(rest, IsSpace) == rest && rest[1..] == h[5..];
    var quoted := h[5..];
    assert TrimLeft(quoted, IsSpace) == quoted;
    assert quoted == "\"" + ref + "\" ";
    ClosingQuote(quoted, ref);
  }

  lemma {:induction false} ClosingQuote(quoted: string, ref: string)
    requires quoted == "\"" + ref + "\" " && '"' !in ref
    ensures Unquoted(quoted) == ref
  {
    var end := 1 + |ref|;
    OccursChar(quoted, '"', end);
    forall j | 1 <= j < end ensures !Occurs(quoted, ['"'], j) {
      OccursChar(quoted, '"', j);
      assert quoted[j] == ref[j - 1];
    }
    FindIs(quoted, ['"'], 1, end);
    assert quoted[1..end] == ref;
  }

  // ----- every form of header -----

  /** The first `ref` of the header ends `pre`, and then comes an equals sign, with gaps around it. */
  ghost predicate RefThen(header: string, pre: string, gap: string, gap': string, rest: string) {
    && header == pre + "ref" + gap + "=" + gap' + rest && (forall j: nat :: j < |pre| ==> !Occurs(header, "ref", j))
    && Blank(gap) && Blank(gap') && (rest != "" ==> !IsSpace(rest[0]))
  }

  lemma {:induction false} ValueAfterRef(header: string, pre: string, gap: string, gap': string, rest: string)
    requires RefThen(header, pre, gap, gap', rest)
    ensures RefValue(header) == Some(Unquoted(rest))
  {
    hide Unquoted;
    var tail := gap + ("=" + (gap' + rest));
    assert header == pre + "ref" + tail;
    CutInThree(header, pre, "ref", tail);
    assert Occurs(header, "ref", |pre|);
    FindIs(header, "ref", 0, |pre|);
    assert header[|pre| + 3..] == tail;
    var after := "=" + (gap' + rest);
    TrimLeftGap(gap, after);
    assert after[0] == '=' && after[1..] == gap' + rest;
    TrimLeftGap(gap', rest);
  }

  /** A value in quotes of either kind is read up to the closing quote, or to the end when there is none. */
  lemma {:induction false} QuotedValue(firstId: string -> Option<string>, header: string, pre: string, gap: string,
                                       gap': string, q: char, value: string, tail: string)
    requires (q == '"' || q == '\'') && q !in value && (tail == "" || tail[0] == q)
    requires RefThen(header, pre, gap, gap', [q] + value + tail)
    ensures RefFromHeader(firstId, header) == firstId(value)
  {
    var rest := [q] + value + tail;
    ValueAfterRef(header, pre, gap, gap', rest);
    var end := 1 + |value|;
    assert rest[0] == q && rest[1..end] == value && rest[end..] == tail;
    forall j | 1 <= j < end ensures !Occurs(rest, [q], j) {
      OccursChar(rest, q, j);
      assert rest[j] == value[j - 1];
    }
    OccursChar(rest, q, end);
    if tail == "" {
      assert rest[1..] == value;
      assert forall j :: Occurs(rest, [q], j) ==> j < end;
    } else {
      assert rest[end] == tail[0];
      FindIs(rest, [q], 1, end);
    }
  }

  /** A value without quotes is read up to the next white space. */
  lemma {:induction false} BareValue(firstId: string -> Option<string>, header: string, pre: string, gap: string,
                                     gap': string, value: string, tail: string)
    requires forall c :: c in value ==> !IsSpace(c)
    requires value != "" ==> value[0] != '"' && value[0] != '\''
    requires (tail != "" ==> IsSpace(tail[0])) && (value == "" ==> tail == "")
    requires RefThen(header, pre, gap, gap', value + tail)
    ensures RefFromHeader(firstId, header) == firstId(value)
  {
    ValueAfterRef(header, pre, gap, gap', value + tail);
    FirstWordIs(value, tail);
    if value != "" { assert (value + tail)[0] == value[0]; }
  }

  lemma {:induction false} FirstWordIs(value: string, tail: string)
    requires (forall c :: c in value ==> !IsSpace(c)) && (tail != "" ==> IsSpace(tail[0]))
    ensures FirstWord(value + tail) == value
  {
    if value == "" {
      assert value + tail == tail;
    } else {
      assert value[0] in value && (value + tail)[1..] == value[1..] + tail;
      FirstWordIs(value[1..], tail);
    }
  }

  // ----- the parser -----

  /** A ref seen before keeps its first fragment; a header without a ref contributes nothing. */
  function Keep(fragments: map<string, string>, ref: Option<string>, body: string): map<string, string> {
    if ref.Some? && ref.value !in fragments then fragments[ref.value := body] else fragments
  }

  datatype Step = Stop | Found(header: string, body: string, next: nat)

  /** The next complete fragment from `pos` on. */
  function NextFragment(m: Markers, t: string, pos: nat): (r: Step)
    requires m.close != ""
    ensures r.Found? ==> pos < r.next <= |t|
  {
    var openAt := Find(t, m.open, pos);
    if openAt == -1 then Stop
    else
      var headEnd := Find(t, m.headEnd, openAt);
      if headEnd == -1 then Stop
      else
        var bodyStart := headEnd + |m.headEnd|;
        var closeAt := Find(t, m.close, bodyStart);
        if closeAt == -1 then Stop
        else Found(Cut(t, openAt + |m.open|, headEnd), StripNewlines(Cut(t, bodyStart, closeAt)), closeAt + |m.close|)
  }

  function ParseFrom(m: Markers, refOf: string -> Option<string>, t: string, pos: nat, fragments: map<string, string>)
    : map<string, string>
    requires m.close != ""
    decreases |t| - pos
  {
    match NextFragment(m, t, pos)
    case Stop => fragments
    case Found(header, body, next) => ParseFrom(m, refOf, t, next, Keep(fragments, refOf(header), body))
  }

  method ParseFragments(rendered: string, firstId: string -> Option<string>) returns (fragments: map<string, string>)
    ensures fragments == ParseFrom(MARKERS, h => RefFromHeader(firstId, h), rendered, 0, map[])
  {
    MarkersAreWellMade();
    fragments := Parse(MARKERS, h => RefFromHeader(firstId, h), rendered);
  }

  method Parse(m: Markers, refOf: string -> Option<string>, rendered: string) returns (fragments: map<string, string>)
    requires m.close != ""
    ensures fragments == ParseFrom(m, refOf, rendered, 0, map[])
  {
    hide NextFragment;
    fragments := map[];
    var pos: nat := 0;
    while true
      invariant ParseFrom(m, refOf, rendered, 0, map[]) == ParseFrom(m, refOf, rendered, pos, fragments)
      invariant pos <= |rendered|
      decreases |rendered| - pos
    {
      var step := ReadNext(m, rendered, pos);
      if step.Stop? { break; }
      pos := step.next;
      var ref := refOf(step.header);
      if ref.Some? && ref.value !in fragments {
        fragments := fragments[ref.value := step.body];
      }
    }
  }

  /** The three searches of one round. */
  method ReadNext(m: Markers, rendered: string, pos: nat) returns (step: Step)
    requires m.close != ""
    ensures step == NextFragment(m, rendered, pos)
  {
    hide Occurs, Cut, StripNewlines;
    var openAt := Find(rendered, m.open, pos);
    if openAt == -1 { return Stop; }
    var headEnd := Find(rendered, m.headEnd, openAt);
    if headEnd == -1 { return Stop; }
    var header := Cut(rendered, openAt + |m.open|, headEnd);
    var bodyStart := headEnd + |m.headEnd|;
    var closeAt := Find(rendered, m.close, bodyStart);
    if closeAt == -1 { return Stop; }
    var body := StripNewlines(Cut(rendered, bodyStart, closeAt));
    step := Found(header, body, closeAt + |m.close|);
  }

  // ----- reading back what was written -----

  /** A fragment with the text before it. */
  datatype Item = Item(noise: string, header: string, body: string)

  function Emit(m: Markers, items: seq<Item>): string {
    if items == [] then "" else EmitOne(m, items[0]) + Emit(m, items[1..])
  }

  function EmitOne(m: Markers, x: Item): string {
    x.noise + m.open + x.header + m.headEnd + x.body + m.close
  }

  /** The first fragment of each ref. */
  function Firsts(refOf: string -> Option<string>, items: seq<Item>,
                  fragments: map<string, string>): map<string, string> {
    if items == [] then fragments
    else Firsts(refOf, items[1..], Keep(fragments, refOf(items[0].header), StripNewlines(items[0].body)))
  }

  ghost predicate Clean(m: Markers, x: Item) {
    Free(x.noise, m.open) && Free(m.open + x.header, m.headEnd) && Free(x.body, m.close)
  }

  /** The first occurrence of a delimiter is where it was put. */
  lemma {:induction false} FirstMarker(t: string, pre: string, noise: string, m: string, rest: string)
    requires t == pre + noise + m + rest && Free(noise, m)
    requires HeadUnique(m) || LastUnique(m)
    ensures Find(t, m, |pre|) == |pre| + |noise|
  {
    var at := |pre| + |noise|;
    CutMarker(t, pre, noise, m, rest);
    forall j | |pre| <= j < at ensures !Occurs(t, m, j) {
      if j + |m| <= at {
        OccursInSlice(t, m, |pre|, at, j);
      } else if Occurs(t, m, j) {
        Straddle(t, m, j, at);
      }
    }
    FindIs(t, m, |pre|, at);
  }

  lemma {:induction false} CutMarker(t: string, pre: string, noise: string, m: string, rest: string)
    requires t == pre + noise + m + rest
    ensures Occurs(t, m, |pre| + |noise|)
    ensures t[|pre|..|pre| + |noise|] == noise
  {
  }

  /** Two occurrences of a delimiter do not overlap. */
  lemma {:induction false} Straddle(t: string, m: string, j: nat, at: nat)
    requires Occurs(t, m, j) && Occurs(t, m, at) && j < at < j + |m|
    ensures !HeadUnique(m) && !LastUnique(m)
  {
    var k := at - j;
    assert t[at] == t[j..j + |m|][k] == m[k];
    assert t[at] == t[at..at + |m|][0] == m[0];
    assert m[k] == m[1..][k - 1];
    var l := |m| - 1 - k;
    assert t[j + |m| - 1] == t[j..j + |m|][|m| - 1] == m[|m| - 1];
    assert t[j + |m| - 1] == t[at..at + |m|][l] == m[l];
    assert m[l] == m[..|m| - 1][l];
  }

  /** Reading one fragment moves past it. */
  lemma {:induction false} ReadOne(m: Markers, t: string, pre: string, x: Item, rest: string)
    requires WellMade(m) && Clean(m, x) && t == pre + EmitOne(m, x) + rest
    ensures NextFragment(m, t, |pre|) == Found(x.header, StripNewlines(x.body), |pre + EmitOne(m, x)|)
  {
    hide StripNewlines, Occurs, EmitOne, Clean, WellMade, Find, Cut;
    OpenAt(m, t, pre, x, rest);
    HeadEndAt(m, t, pre, x, rest);
    CloseAt(m, t, pre, x, rest);
    PiecesOf(m, t, pre, x, rest);
  }

  lemma {:induction false} OpenAt(m: Markers, t: string, pre: string, x: Item, rest: string)
    requires WellMade(m) && Clean(m, x) && t == pre + EmitOne(m, x) + rest
    ensures Find(t, m.open, |pre|) == |pre| + |x.noise|
  {
    assert t == pre + x.noise + m.open + (x.header + m.headEnd + x.body + m.close + rest);
    FirstMarker(t, pre, x.noise, m.open, x.header + m.headEnd + x.body + m.close + rest);
  }

  lemma {:induction false} HeadEndAt(m: Markers, t: string, pre: string, x: Item, rest: string)
    requires WellMade(m) && Clean(m, x) && t == pre + EmitOne(m, x) + rest
    ensures Find(t, m.headEnd, |pre| + |x.noise|) == |pre| + |x.noise| + |m.open| + |x.header|
  {
    assert t == (pre + x.noise) + (m.open + x.header) + m.headEnd + (x.body + m.close + rest);
    FirstMarker(t, pre + x.noise, m.open + x.header, m.headEnd, x.body + m.close + rest);
  }

  lemma {:induction false} CloseAt(m: Markers, t: string, pre: string, x: Item, rest: string)
    requires WellMade(m) && Clean(m, x) && t == pre + EmitOne(m, x) + rest
    ensures var bodyStart := |pre| + |x.noise| + |m.open| + |x.header| + |m.headEnd|;
      Find(t, m.close, bodyStart) == bodyStart + |x.body|
  {
    var front := pre + x.noise + m.open + x.header + m.headEnd;
    assert t == front + x.body + m.close + rest;
    FirstMarker(t, front, x.body, m.close, rest);
  }

  lemma {:induction false} PiecesOf(m: Markers, t: string, pre: string, x: Item, rest: string)
    requires t == pre + EmitOne(m, x) + rest
    ensures var openAt := |pre| + |x.noise|;
      var headEnd := openAt + |m.open| + |x.header|;
      && Cut(t, openAt + |m.open|, headEnd) == x.header
      && Cut(t, headEnd + |m.headEnd|, headEnd + |m.headEnd| + |x.body|) == x.body
      && |pre + EmitOne(m, x)| == headEnd + |m.headEnd| + |x.body| + |m.close|
  {
  }

  /** Nothing is read where no fragment starts. */
  lemma {:induction false} ParseTail(m: Markers, refOf: string -> Option<string>, t: string, pre: string, tail: string,
                                     fragments: map<string, string>)
    requires t == pre + tail && Free(tail, m.open) && m.close != ""
    ensures ParseFrom(m, refOf, t, |pre|, fragments) == fragments
  {
    CutAt(t, pre, tail);
    assert t[|pre|..|t|] == tail;
    forall i | |pre| <= i ensures !Occurs(t, m.open, i) {
      if i + |m.open| <= |t| { OccursInSlice(t, m.open, |pre|, |t|, i); }
    }
  }

  lemma {:induction false} ParseItems(m: Markers, refOf: string -> Option<string>, t: string, pre: string,
                                      items: seq<Item>, tail: string, fragments: map<string, string>)
    requires WellMade(m) && (forall k :: 0 <= k < |items| ==> Clean(m, items[k])) && Free(tail, m.open)
    requires t == pre + Emit(m, items) + tail
    ensures ParseFrom(m, refOf, t, |pre|, fragments) == Firsts(refOf, items, fragments)
    decreases |items|
  {
    hide NextFragment, EmitOne, Clean, Keep, StripNewlines, Free, LastUnique;
    if items == [] {
      assert pre + "" == pre;
      ParseTail(m, refOf, t, pre, tail, fragments);
    } else {
      var x, rest := items[0], items[1..];
      EmitSplit(pre, EmitOne(m, x), Emit(m, rest), tail);
      ReadOne(m, t, pre, x, Emit(m, rest) + tail);
      ParseItems(m, refOf, t, pre + EmitOne(m, x), rest, tail, Keep(fragments, refOf(x.header), StripNewlines(x.body)));
    }
  }

  lemma {:induction false} EmitSplit(pre: string, one: string, more: string, tail: string)
    ensures pre + (one + more) + tail == pre + one + (more + tail)
    ensures pre + (one + more) + tail == (pre + one) + more + tail
  {
  }

  /** Item `k` is the first one whose header carries the ref. */
  ghost predicate FirstFor(refOf: string -> Option<string>, items: seq<Item>, ref: string, k: int) {
    && 0 <= k < |items| && refOf(items[k].header) == Some(ref)
    && forall j :: 0 <= j < k ==> refOf(items[j].header) != Some(ref)
  }

  lemma {:induction false} FirstsAre(refOf: string -> Option<string>, items: seq<Item>, fragments: map<string, string>,
                                     ref: string)
    ensures var r := Firsts(refOf, items, fragments);
      if ref in fragments then ref in r && r[ref] == fragments[ref]
      else (ref in r <==> exists k :: FirstFor(refOf, items, ref, k))
           && forall k :: FirstFor(refOf, items, ref, k) ==> ref in r && r[ref] == StripNewlines(items[k].body)
  {
    hide StripNewlines;
    if items != [] {
      var own, rest := refOf(items[0].header), items[1..];
      FirstsAre(refOf, rest, Keep(fragments, own, StripNewlines(items[0].body)), ref);
      assert FirstFor(refOf, items, ref, 0) <==> own == Some(ref);
      forall k | k > 0
        ensures FirstFor(refOf, items, ref, k) <==> own != Some(ref) && FirstFor(refOf, rest, ref, k - 1)
      {
        if own != Some(ref) && FirstFor(refOf, rest, ref, k - 1) {
          assert forall j :: 0 < j < k ==> items[j] == rest[j - 1];
        }
        if FirstFor(refOf, items, ref, k) {
          assert forall j :: 0 <= j < k - 1 ==> rest[j] == items[j + 1];
        }
      }
      if own != Some(ref) {
        if k :| FirstFor(refOf, rest, ref, k) { assert FirstFor(refOf, items, ref, k + 1); }
      }
    }
  }

  /** Round trip: parsing delimited fragments, with any text around them that holds no opening delimiter, gives
      the body of the first fragment of every ref and nothing else. */
  lemma {:induction false} RoundTrip(firstId: string -> Option<string>, items: seq<Item>, tail: string)
    requires forall k :: 0 <= k < |items| ==> Clean(MARKERS, items[k])
    requires Free(tail, MARKERS.open)
    ensures var refOf := h => RefFromHeader(firstId, h);
      var r := ParseFrom(MARKERS, refOf, Emit(MARKERS, items) + tail, 0, map[]);
      && (forall ref :: ref in r <==> exists k :: FirstFor(refOf, items, ref, k))
      && forall ref, k :: FirstFor(refOf, items, ref, k) ==> ref in r && r[ref] == StripNewlines(items[k].body)
  {
    hide Clean, Emit, Firsts, ParseFrom, RefFromHeader, StripNewlines;
    MarkersAreWellMade();
    var t := Emit(MARKERS, items) + tail;
    assert t == "" + Emit(MARKERS, items) + tail;
    var refOf := h => RefFromHeader(firstId, h);
    ParseItems(MARKERS, refOf, t, "", items, tail, map[]);
    forall ref: string
      ensures var r := Firsts(refOf, items, map[]);
        (ref in r <==> exists k :: FirstFor(refOf, items, ref, k))
        && forall k :: FirstFor(refOf, items, ref, k) ==> ref in r && r[ref] == StripNewlines(items[k].body)
    {
      FirstsAre(refOf, items, map[], ref);
    }
  }

  /** A body set on lines of its own comes back as it was. */
  lemma {:induction false} BodyComesBack(body: string)
    requires body == "" || (body[0] != '\n' && body[|body| - 1] != '\n')
    ensures StripNewlines("\n" + body + "\n") == body
  {
    var t := "\n" + body + "\n";
    assert t[0] == '\n';
    assert t[1..] == body + "\n";
    if body == "" {
      assert t[1..] == "\n" && t[1..][1..] == "" && t[1..][0] == '\n';
      assert TrimLeft(t[1..], IsNewline) == TrimLeft("", IsNewline) == "";
    } else {
      assert TrimLeft(t, IsNewline) == t[1..];
      assert t[1..][..|body|] == body && t[1..][|body|] == '\n';
      assert TrimRight(body, IsNewline) == body;
    }
  }

  /** Every body read holds no closing delimiter and has no newline at either end. */
  ghost predicate BodyClean(m: Markers, body: string) {
    Free(body, m.close) && (body != "" ==> body[0] != '\n' && body[|body| - 1] != '\n')
  }

  ghost predicate AllClean(m: Markers, fragments: map<string, string>) {
    forall k :: k in fragments ==> BodyClean(m, fragments[k])
  }

  lemma {:induction false} StrippedBodyIsClean(m: Markers, t: string, start: nat, end: nat)
    requires start <= end <= |t| && forall j :: start <= j < end ==> !Occurs(t, m.close, j)
    requires m.close != ""
    ensures BodyClean(m, StripNewlines(t[start..end]))
  {
    hide Occurs, TrimLeft, TrimRight;
    var s := t[start..end];
    StrippedIsSlice(s);
    var l := TrimLeft(s, IsNewline);
    var r := TrimRight(l, IsNewline);
    var a := start + |s| - |l|;
    TrimmedIsSlice(t, start, end, l, r);
    forall i ensures !Occurs(r, m.close, i) {
      SliceIsFree(t, m.close, start, end, a, a + |r|, i);
    }
  }

  /** Stripping newlines cuts them off at both ends. */
  lemma {:induction false} StrippedIsSlice(s: string)
    ensures var l := TrimLeft(s, IsNewline);
      var r := TrimRight(l, IsNewline);
      && |l| <= |s| && l == s[|s| - |l|..] && |r| <= |l| && r == l[..|r|] && r == StripNewlines(s)
      && (r != "" ==> r[0] != '\n' && r[|r| - 1] != '\n')
  {
    TrimLeftCuts(s, IsNewline);
    TrimRightCuts(TrimLeft(s, IsNewline), IsNewline);
  }

  lemma {:induction false} TrimmedIsSlice(t: string, start: nat, end: nat, l: string, r: string)
    requires start <= end <= |t|
    requires |l| <= end - start && l == t[start..end][end - start - |l|..]
    requires |r| <= |l| && r == l[..|r|]
    ensures r == t[end - |l|..end - |l| + |r|]
  {
    assert forall k :: 0 <= k < |r| ==> r[k] == t[end - |l| + k];
  }

  lemma {:induction false} SliceIsFree(t: string, q: string, start: nat, end: nat, a: nat, b: nat, i: int)
    requires start <= a <= b <= end <= |t| && q != ""
    requires forall j :: start <= j < end ==> !Occurs(t, q, j)
    ensures !Occurs(t[a..b], q, i)
  {
    if 0 <= i && i + |q| <= b - a { OccursInSlice(t, q, a, b, a + i); }
  }

  lemma {:induction false} ParsedBodiesAreClean(m: Markers, refOf: string -> Option<string>, t: string, pos: nat,
                                                fragments: map<string, string>)
    requires AllClean(m, fragments) && m.close != ""
    ensures AllClean(m, ParseFrom(m, refOf, t, pos, fragments))
    decreases |t| - pos
  {
    hide BodyClean, NextFragment;
    var step := NextFragment(m, t, pos);
    if step.Found? {
      NextBodyIsClean(m, t, pos);
      ParsedBodiesAreClean(m, refOf, t, step.next, Keep(fragments, refOf(step.header), step.body));
    }
  }

  lemma {:induction false} NextBodyIsClean(m: Markers, t: string, pos: nat)
    requires m.close != ""
    ensures var step := NextFragment(m, t, pos); step.Found? ==> BodyClean(m, step.body)
  {
    hide BodyClean, StripNewlines;
    var step := NextFragment(m, t, pos);
    if step.Found? {
      var bodyStart := Find(t, m.headEnd, Find(t, m.open, pos)) + |m.headEnd|;
      StrippedBodyIsClean(m, t, bodyStart, Find(t, m.close, bodyStart));
    }
  }
}
