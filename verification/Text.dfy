/**
The string operations of Python and JavaScript that the modelled code is built from:
first-occurrence search, splitting on newlines, stripping.  Each is given by what it returns,
and the laws below (splitting a concatenation, joining what was split) are shared by every
module that cuts or pastes text.
*/
module Text {

  datatype Option<+T> = None | Some(value: T)

  /** Characters Python's `str.strip` and `\s` treat as white space. */
  predicate IsSpace(c: char) {
    || '\t' <= c <= '\r'
    || '\U{1c}' <= c <= ' '
    || c == '\U{85}' || c == '\U{a0}' || c == '\U{1680}'
    || '\U{2000}' <= c <= '\U{200a}'
    || c == '\U{2028}' || c == '\U{2029}' || c == '\U{202f}'
    || c == '\U{205f}' || c == '\U{3000}'
  }

  /** `q` stands in `t` at offset `i`. */
  predicate Occurs(t: string, q: string, i: int) {
    0 <= i <= |t| - |q| && t[i..i + |q|] == q
  }

  /** Python's `t.find(q, from)` and JavaScript's `t.indexOf(q, from)`. */
  function Find(t: string, q: string, from: nat): (i: int)
    ensures i == -1 ==> forall j :: from <= j ==> !Occurs(t, q, j)
    ensures i != -1 ==> from <= i && Occurs(t, q, i)
    ensures i != -1 ==> forall j :: from <= j < i ==> !Occurs(t, q, j)
    decreases |t| - from
  {
    if from + |q| > |t| then -1
    else if t[from..from + |q|] == q then from
    else Find(t, q, from + 1)
  }

  /** A first occurrence is the value of `Find`. */
  lemma {:induction false} FindIs(t: string, q: string, from: nat, i: nat)
    requires from <= i && Occurs(t, q, i)
    requires forall j :: from <= j < i ==> !Occurs(t, q, j)
    ensures Find(t, q, from) == i
  {
  }

  /** An occurrence inside an occurrence is an occurrence. */
  lemma {:induction false} OccursTrans(t: string, r: string, q: string, j: nat, k: nat)
    requires Occurs(t, r, j) && Occurs(r, q, k)
    ensures Occurs(t, q, j + k)
  {
    var a, b := t[j + k..j + k + |q|], r[k..k + |q|];
    assert forall i :: 0 <= i < |q| ==> a[i] == t[j..j + |r|][k + i];
    assert a == b;
  }

  /** An occurrence lying inside a slice is an occurrence in the slice. */
  lemma {:induction false} OccursInSlice(t: string, q: string, lo: nat, hi: nat, i: nat)
    requires lo <= i && i + |q| <= hi <= |t|
    ensures Occurs(t, q, i) <==> Occurs(t[lo..hi], q, i - lo)
  {
    var a, b := t[lo..hi][i - lo..i - lo + |q|], t[i..i + |q|];
    assert |a| == |b| && forall k :: 0 <= k < |q| ==> a[k] == b[k];
    assert a == b;
  }

  /** A one-character needle occurs where that character stands. */
  lemma {:induction false} OccursChar(t: string, c: char, i: nat)
    ensures Occurs(t, [c], i) <==> i < |t| && t[i] == c
  {
    if i < |t| { assert t[i..i + 1] == [t[i]]; }
  }

  lemma {:induction false} CutAt<T>(t: seq<T>, p: seq<T>, q: seq<T>)
    requires t == p + q
    ensures t[..|p|] == p && t[|p|..] == q
  {
  }

  lemma {:induction false} CutInThree<T>(t: seq<T>, p: seq<T>, q: seq<T>, r: seq<T>)
    requires t == p + q + r
    ensures t[..|p|] == p && t[|p|..|p| + |q|] == q && t[|p| + |q|..] == r
  {
  }

  lemma {:induction false} TakeDrop<T>(t: seq<T>, n: nat)
    requires n <= |t|
    ensures t == t[..n] + t[n..]
  {
  }

  lemma {:induction false} Assoc<T>(a: seq<T>, b: seq<T>, c: seq<T>)
    ensures (a + b) + c == a + (b + c)
  {
  }

  /** An occurrence of three texts in a row is an occurrence of each in its place. */
  lemma {:induction false} OccursParts(text: string, a: string, b: string, c: string, i: nat)
    ensures Occurs(text, a + b + c, i)
      <==> Occurs(text, a, i) && Occurs(text, b, i + |a|) && Occurs(text, c, i + |a| + |b|)
  {
    Assoc(a, b, c);
    OccursPair(text, a, b + c, i);
    OccursPair(text, b, c, i + |a|);
  }

  lemma {:induction false} OccursPair(text: string, a: string, b: string, i: nat)
    ensures Occurs(text, a + b, i) <==> Occurs(text, a, i) && Occurs(text, b, i + |a|)
  {
    if i + |a + b| <= |text| {
      var t := text[i..i + |a + b|];
      TakeDrop(t, |a|);
      assert t[..|a|] == text[i..i + |a|];
      assert t[|a|..] == text[i + |a|..i + |a| + |b|];
      if t == a + b { CutAt(t, a, b); }
    }
  }

  /** Python's `t[i:j]` for bounds that are not negative. */
  function Cut(t: string, i: nat, j: nat): string {
    if i <= j <= |t| then t[i..j]
    else if i <= |t| < j then t[i..]
    else ""
  }

  /** The member of a one-element set. */
  function Only(s: set<string>): (r: Option<string>)
    ensures forall x :: r == Some(x) <==> s == {x}
  {
    if |s| == 1 then
      OneElement(s);
      var x :| x in s;
      Some(x)
    else None
  }

  lemma {:induction false} OneElement(s: set<string>)
    requires |s| == 1
    ensures exists x :: s == {x}
    ensures forall x, y :: x in s && y in s ==> x == y
  {
    var x :| x in s;
    assert |s - {x}| == 0;
    assert s == {x};
  }

  // ----- lines -----

  /** Python's `s.split("\n")`. */
  function Split(s: string): (lines: seq<string>)
    ensures |lines| >= 1
  {
    if s == "" then [""]
    else if s[0] == '\n' then [""] + Split(s[1..])
    else var rest := Split(s[1..]); [[s[0]] + rest[0]] + rest[1..]
  }

  /** Python's `"\n".join(lines)`. */
  function Join(lines: seq<string>): string {
    if |lines| == 0 then ""
    else if |lines| == 1 then lines[0]
    else lines[0] + "\n" + Join(lines[1..])
  }

  lemma {:induction false} SplitAppend(a: string, b: string)
    ensures Split(a + "\n" + b) == Split(a) + Split(b)
  {
    var t := a + "\n" + b;
    if a == "" {
      assert t[1..] == b;
    } else {
      assert t[1..] == a[1..] + "\n" + b;
      SplitAppend(a[1..], b);
    }
  }

  lemma {:induction false} SplitLineFree(s: string)
    ensures forall l :: l in Split(s) ==> '\n' !in l
  {
    if s != "" {
      SplitLineFree(s[1..]);
      var rest := Split(s[1..]);
      assert forall l :: l in rest[1..] ==> l in rest;
    }
  }

  lemma {:induction false} SplitSingle(s: string)
    requires '\n' !in s
    ensures Split(s) == [s]
  {
    if s != "" {
      SplitSingle(s[1..]);
      assert s == [s[0]] + s[1..];
    }
  }

  lemma {:induction false} JoinCons(l: string, rest: seq<string>)
    requires |rest| > 0
    ensures Join([l] + rest) == l + "\n" + Join(rest)
  {
    assert ([l] + rest)[1..] == rest;
  }

  lemma {:induction false} JoinPrefix(x: string, rest: seq<string>)
    requires |rest| > 0
    ensures Join([x + rest[0]] + rest[1..]) == x + Join(rest)
  {
    if |rest| > 1 {
      JoinCons(x + rest[0], rest[1..]);
      var j := Join(rest[1..]);
      Assoc(x, rest[0], "\n");
      Assoc(x, rest[0] + "\n", j);
    }
  }

  lemma {:induction false} JoinSplit(s: string)
    ensures Join(Split(s)) == s
  {
    if s != "" {
      var rest := Split(s[1..]);
      JoinSplit(s[1..]);
      if s[0] == '\n' {
        JoinCons("", rest);
      } else {
        JoinPrefix([s[0]], rest);
      }
    }
  }

  lemma {:induction false} JoinAppend(a: seq<string>, b: seq<string>)
    requires |a| > 0 && |b| > 0
    ensures Join(a + b) == Join(a) + "\n" + Join(b)
  {
    if |a| == 1 {
      assert a == [a[0]];
      JoinCons(a[0], b);
    } else {
      assert a + b == [a[0]] + (a[1..] + b);
      JoinCons(a[0], a[1..] + b);
      JoinAppend(a[1..], b);
    }
  }

  lemma {:induction false} SplitJoin(lines: seq<string>)
    requires |lines| > 0
    requires forall l :: l in lines ==> '\n' !in l
    ensures Split(Join(lines)) == lines
  {
    SplitSingle(lines[0]);
    if |lines| == 1 {
      assert lines == [lines[0]];
    } else {
      SplitJoin(lines[1..]);
      SplitAppend(lines[0], Join(lines[1..]));
      assert lines == [lines[0]] + lines[1..];
    }
  }

  /** The lines of a text that ends a line. */
  function LinesOfHead(pre: string): seq<string> {
    if pre == "" then [] else Split(pre[..|pre| - 1])
  }

  /** The lines of a text that starts with a line break. */
  function LinesOfTail(post: string): seq<string> {
    if post == "" then [] else Split(post[1..])
  }

  /** The text that follows a line when the lines `b` come after it. */
  function TailText(b: seq<string>): string {
    if b == [] then "" else "\n" + Join(b)
  }

  lemma {:induction false} LinesOfTailText(b: seq<string>)
    requires forall l :: l in b ==> '\n' !in l
    ensures LinesOfTail(TailText(b)) == b
  {
    if b != [] {
      SplitJoin(b);
      CutAt(TailText(b), "\n", Join(b));
    }
  }

  lemma {:induction false} JoinParts(a: seq<string>, b: seq<string>)
    requires |a| > 0
    ensures Join(a + b) == Join(a) + TailText(b)
  {
    if b == [] {
      assert a + b == a;
    } else {
      JoinAppend(a, b);
      Assoc(Join(a), "\n", Join(b));
    }
  }

  lemma {:induction false} SplitBeforeTail(mid: string, post: string)
    requires post == "" || post[0] == '\n'
    ensures Split(mid + post) == Split(mid) + LinesOfTail(post)
  {
    if post == "" {
      assert mid + post == mid;
    } else {
      assert post == "\n" + post[1..];
      Assoc(mid, "\n", post[1..]);
      SplitAppend(mid, post[1..]);
    }
  }

  lemma {:induction false} SplitAfterHead(pre: string, mid: string)
    requires pre == "" || pre[|pre| - 1] == '\n'
    ensures Split(pre + mid) == LinesOfHead(pre) + Split(mid)
  {
    if pre == "" {
      assert pre + mid == mid;
    } else {
      assert pre == pre[..|pre| - 1] + "\n";
      SplitAppend(pre[..|pre| - 1], mid);
    }
  }

  lemma {:induction false} SplitAround(pre: string, mid: string, post: string)
    requires pre == "" || pre[|pre| - 1] == '\n'
    requires post == "" || post[0] == '\n'
    ensures Split(pre + mid + post) == LinesOfHead(pre) + Split(mid) + LinesOfTail(post)
  {
    Assoc(pre, mid, post);
    Assoc(LinesOfHead(pre), Split(mid), LinesOfTail(post));
    SplitAfterHead(pre, mid + post);
    SplitBeforeTail(mid, post);
  }

  lemma {:induction false} SplitPrefix(x: string, t: string)
    requires '\n' !in x
    ensures Split(x + t) == [x + Split(t)[0]] + Split(t)[1..]
  {
    if x == "" {
      assert x + t == t && x + Split(t)[0] == Split(t)[0];
    } else {
      assert (x + t)[1..] == x[1..] + t;
      SplitPrefix(x[1..], t);
      assert [x[0]] + (x[1..] + Split(t)[0]) == x + Split(t)[0];
    }
  }

  lemma {:induction false} LastPiece(a: string) returns (h: string, x: string)
    ensures a == h + x && '\n' !in x && (h == "" || h[|h| - 1] == '\n')
  {
    if a == "" || a[|a| - 1] == '\n' {
      h, x := a, "";
    } else {
      h, x := LastPiece(a[..|a| - 1]);
      x := x + [a[|a| - 1]];
    }
  }

  /** Two texts in a row: the last piece of the one and the first of the other are one line. */
  lemma {:induction false} SplitConcat(a: string, b: string)
    ensures var p, q := Split(a), Split(b);
      Split(a + b) == p[..|p| - 1] + [p[|p| - 1] + q[0]] + q[1..]
  {
    hide Split;
    var h, x := LastPiece(a);
    Assoc(h, x, b);
    SplitAfterHead(h, x);
    SplitAfterHead(h, x + b);
    SplitSingle(x);
    SplitPrefix(x, b);
    assert Split(a) == LinesOfHead(h) + [x];
  }

  // ----- stripping -----

  function TrimLeft(s: string, p: char -> bool): (r: string)
    ensures r != "" ==> !p(r[0])
  {
    if s != "" && p(s[0]) then TrimLeft(s[1..], p) else s
  }

  function TrimRight(s: string, p: char -> bool): (r: string)
    ensures r != "" ==> !p(r[|r| - 1])
  {
    if s != "" && p(s[|s| - 1]) then TrimRight(s[..|s| - 1], p) else s
  }

  function Trim(s: string, p: char -> bool): string {
    TrimRight(TrimLeft(s, p), p)
  }

  /** Python's `s.strip()`. */
  function Strip(s: string): string {
    Trim(s, IsSpace)
  }

  predicate IsNewline(c: char) { c == '\n' }

  /** Python's `s.strip("\n")`. */
  function StripNewlines(s: string): string {
    Trim(s, IsNewline)
  }

  /** A line is blank when it holds white space only, that is, when stripping leaves nothing. */
  predicate Blank(s: string) {
    forall i :: 0 <= i < |s| ==> IsSpace(s[i])
  }

  lemma {:induction false} TrimLeftCuts(s: string, p: char -> bool)
    ensures var r := TrimLeft(s, p);
      && |r| <= |s| && r == s[|s| - |r|..]
      && forall k :: 0 <= k < |s| - |r| ==> p(s[k])
  {
    if s != "" && p(s[0]) {
      TrimLeftCuts(s[1..], p);
      var r := TrimLeft(s, p);
      forall k | 0 <= k < |s| - |r| ensures p(s[k]) {
        if k > 0 { assert s[k] == s[1..][k - 1]; }
      }
    }
  }

  lemma {:induction false} TrimRightCuts(s: string, p: char -> bool)
    ensures var r := TrimRight(s, p);
      && |r| <= |s| && r == s[..|r|]
      && forall k :: |r| <= k < |s| ==> p(s[k])
  {
    if s != "" && p(s[|s| - 1]) {
      TrimRightCuts(s[..|s| - 1], p);
    }
  }

  /** White space in front goes. */
  lemma {:induction false} TrimLeftGap(gap: string, rest: string)
    requires Blank(gap) && (rest != "" ==> !IsSpace(rest[0]))
    ensures TrimLeft(gap + rest, IsSpace) == rest
  {
    if gap == "" {
      assert gap + rest == rest;
    } else {
      assert (gap + rest)[1..] == gap[1..] + rest;
      TrimLeftGap(gap[1..], rest);
    }
  }

  /** White space at the end goes. */
  lemma {:induction false} TrimRightGap(rest: string, gap: string)
    requires Blank(gap) && (rest != "" ==> !IsSpace(rest[|rest| - 1]))
    ensures TrimRight(rest + gap, IsSpace) == rest
  {
    if gap == "" {
      assert rest + gap == rest;
    } else {
      var n := |gap| - 1;
      assert (rest + gap)[..|rest| + n] == rest + gap[..n] && (rest + gap)[|rest| + n] == gap[n];
      TrimRightGap(rest, gap[..n]);
    }
  }

  /** The text is `core` with white space around it, and `core` neither starts nor ends with any. */
  ghost predicate Surrounds(s: string, core: string) {
    && (core != "" ==> !IsSpace(core[0]) && !IsSpace(core[|core| - 1]))
    && exists i: nat :: i + |core| <= |s| && s[i..i + |core|] == core && Blank(s[..i]) && Blank(s[i + |core|..])
  }

  lemma {:induction false} StripIs(s: string, core: string)
    ensures Strip(s) == core <==> Surrounds(s, core)
  {
    hide Strip;
    StripSurrounds(s);
    if Surrounds(s, core) {
      var i: nat :| i + |core| <= |s| && s[i..i + |core|] == core && Blank(s[..i]) && Blank(s[i + |core|..]);
      SurroundedIs(s, core, i);
    }
  }

  lemma {:induction false} SurroundedIs(s: string, core: string, i: nat)
    requires core != "" ==> !IsSpace(core[0]) && !IsSpace(core[|core| - 1])
    requires i + |core| <= |s| && s[i..i + |core|] == core && Blank(s[..i]) && Blank(s[i + |core|..])
    ensures Strip(s) == core
  {
    hide IsSpace, Strip, Blank;
    assert s == s[..i] + s[i..i + |core|] + s[i + |core|..];
    StripSurrounded(s[..i], core, s[i + |core|..]);
  }

  lemma {:induction false} StripSurrounds(s: string)
    ensures Surrounds(s, Strip(s))
  {
    hide IsSpace;
    var l := TrimLeft(s, IsSpace);
    var r := TrimRight(l, IsSpace);
    TrimLeftCuts(s, IsSpace);
    TrimRightCuts(l, IsSpace);
    var i := |s| - |l|;
    assert s[i..] == l && s[i + |r|..] == l[|r|..];
    assert s[i..i + |r|] == l[..|r|];
    assert Blank(s[..i]) && Blank(s[i + |r|..]);
  }

  lemma {:induction false} StripSurrounded(before: string, core: string, after: string)
    requires Blank(before) && Blank(after)
    requires core != "" ==> !IsSpace(core[0]) && !IsSpace(core[|core| - 1])
    ensures Strip(before + core + after) == core
  {
    hide IsSpace;
    if core == "" {
      assert before + core + after == (before + after) + "";
      TrimLeftGap(before + after, "");
    } else {
      Assoc(before, core, after);
      TrimLeftGap(before, core + after);
      TrimRightGap(core, after);
    }
  }

  lemma {:induction false} TrimKeeps(s: string, p: char -> bool, c: char)
    requires c in s && !p(c)
    ensures c in Trim(s, p)
  {
    TrimLeftKeeps(s, p, c);
    TrimRightKeeps(TrimLeft(s, p), p, c);
  }

  lemma {:induction false} TrimLeftKeeps(s: string, p: char -> bool, c: char)
    requires c in s && !p(c)
    ensures c in TrimLeft(s, p)
  {
    if p(s[0]) { TrimLeftKeeps(s[1..], p, c); }
  }

  lemma {:induction false} TrimRightKeeps(s: string, p: char -> bool, c: char)
    requires c in s && !p(c)
    ensures c in TrimRight(s, p)
  {
    var n := |s| - 1;
    if p(s[n]) {
      assert s == s[..n] + [s[n]];
      TrimRightKeeps(s[..n], p, c);
    }
  }

  lemma {:induction false} BlankIffStripsToNothing(s: string)
    ensures Blank(s) <==> Strip(s) == ""
  {
    TrimLeftCuts(s, IsSpace);
    var l := TrimLeft(s, IsSpace);
    if l != "" {
      assert l[0] == s[|s| - |l|];
      TrimKeeps(s, IsSpace, l[0]);
    }
  }

  /** Stripping never removes a character that is not white space. */
  lemma {:induction false} StripKeeps(s: string, c: char)
    requires c in s && !IsSpace(c)
    ensures c in Strip(s)
  {
    TrimKeeps(s, IsSpace, c);
  }
}
