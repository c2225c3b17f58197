/**
The laws of the front-matter merge: what survives it, and when the last merge wins.
*/
module FrontMatterLaws {
  import opened Text
  import opened Sorting
  import opened FrontMatter

  // ----- physical lines -----

  /** The lines a reader sees when these lines, some with newlines of their own, are joined. */
  function Physical(lines: seq<string>): seq<string> {
    if lines == [] then [] else Split(lines[0]) + Physical(lines[1..])
  }

  lemma {:induction false} SplitJoined(lines: seq<string>)
    requires lines != []
    ensures Split(Join(lines)) == Physical(lines)
  {
    hide Split;
    if |lines| == 1 {
      assert lines[1..] == [] && Split(lines[0]) + [] == Split(lines[0]);
    } else {
      SplitJoined(lines[1..]);
      SplitAppend(lines[0], Join(lines[1..]));
    }
  }

  lemma {:induction false} PhysicalAppend(a: seq<string>, b: seq<string>)
    ensures Physical(a + b) == Physical(a) + Physical(b)
  {
    hide Split;
    if a == [] {
      assert a + b == b;
    } else {
      assert (a + b)[1..] == a[1..] + b;
      PhysicalAppend(a[1..], b);
      Assoc(Split(a[0]), Physical(a[1..]), Physical(b));
    }
  }

  lemma {:induction false} PhysicalPlain(lines: seq<string>)
    requires forall l :: l in lines ==> '\n' !in l
    ensures Physical(lines) == lines
  {
    hide Split;
    if lines != [] {
      SplitSingle(lines[0]);
      PhysicalPlain(lines[1..]);
      assert lines == [lines[0]] + lines[1..];
    }
  }

  /** The lines of a merged document. */
  lemma {:induction false} SplitAssembled(header: seq<string>, body: string)
    requires header != []
    ensures Split(Assemble(header, body)) == ["---"] + Physical(header) + ["---"] + Split(body)
  {
    hide Split, Join;
    var t := "---" + "\n" + body;
    var u := Join(header) + "\n" + t;
    AssembledText(Join(header), body);
    SplitAppend("---", u);
    SplitAppend(Join(header), t);
    SplitAppend("---", body);
    SplitJoined(header);
    SplitSingle("---");
    var f := ["---"];
    Assoc(f, Physical(header), f + Split(body));
    Assoc(f + Physical(header), f, Split(body));
  }

  lemma {:induction false} AssembledText(h: string, body: string)
    ensures "---\n" + h + "\n---\n" + body == "---" + "\n" + (h + "\n" + ("---" + "\n" + body))
  {
  }

  // ----- headers -----

  ghost predicate FenceFree(lines: seq<string>) {
    forall l :: l in lines ==> !IsFence(l)
  }

  lemma {:induction false} DashesAreFence()
    ensures IsFence("---")
  {
    assert "---"[..3] == "---";
  }

  lemma {:induction false} HeaderIsClean(text: string)
    ensures var header := SplitDoc(text).0; FenceFree(header) && forall l :: l in header ==> '\n' !in l
  {
    hide IsFence, Split;
    SplitLineFree(text);
    var lines := Split(text);
    if IsFence(lines[0]) {
      var k := FenceFrom(lines, 1);
      if k != -1 {
        forall l | l in lines[1..k] ensures !IsFence(l) && '\n' !in l {
          var j :| 0 <= j < |lines[1..k]| && lines[1..k][j] == l;
          assert l == lines[j + 1];
        }
      }
    }
  }

  /** The header ends at the first fence after the opening one. */
  lemma {:induction false} SplitAtFence(text: string, before: seq<string>, fence: string, after: seq<string>)
    requires Split(text) == ["---"] + before + [fence] + after && FenceFree(before) && IsFence(fence)
    ensures SplitDoc(text) == (before, Join(after))
  {
    hide IsFence, Split, Join;
    DashesAreFence();
    var lines := Split(text);
    var k := 1 + |before|;
    assert lines[0] == "---" && lines[k] == fence && lines[1..k] == before && lines[k + 1..] == after;
    forall j | 1 <= j < k ensures !IsFence(lines[j]) {
      assert lines[j] == before[j - 1];
    }
    FenceIs(lines, 1, k);
  }

  lemma {:induction false} FenceIs(lines: seq<string>, i: nat, k: nat)
    requires i <= k < |lines| && IsFence(lines[k]) && forall j :: i <= j < k ==> !IsFence(lines[j])
    ensures FenceFrom(lines, i) == k
  {
    hide IsFence;
    var r := FenceFrom(lines, i);
    assert r != -1;
    assert !(r < k);
    assert !(k < r);
  }

  // ----- stripping -----

  lemma {:induction false} StayingMembers(name: string, lines: seq<string>, n: nat)
    requires n <= |lines|
    ensures forall l :: l in Staying(name, lines, n) ==> l in lines && !IsKeyLine(name, l)
  {
    hide IsKeyLine, Indented;
    if n > 0 { StayingMembers(name, lines, n - 1); }
  }

  lemma {:induction false} NothingGoes(name: string, lines: seq<string>, i: nat)
    requires i < |lines| && forall l :: l in lines ==> !IsKeyLine(name, l)
    ensures !Goes(name, lines, i)
  {
    hide IsKeyLine, Indented;
    if i > 0 { NothingGoes(name, lines, i - 1); }
  }

  lemma {:induction false} GoesAfter(name: string, a: seq<string>, b: seq<string>, j: nat)
    requires j < |b| && forall l :: l in a ==> !IsKeyLine(name, l)
    ensures Goes(name, a + b, |a| + j) == Goes(name, b, j)
  {
    hide IsKeyLine, Indented;
    assert (a + b)[|a| + j] == b[j];
    if j > 0 {
      GoesAfter(name, a, b, j - 1);
    } else if a != [] {
      GoesBefore(name, a, b, |a| - 1);
      NothingGoes(name, a, |a| - 1);
    }
  }

  lemma {:induction false} GoesBefore(name: string, a: seq<string>, b: seq<string>, i: nat)
    requires i < |a|
    ensures Goes(name, a + b, i) == Goes(name, a, i)
  {
    hide IsKeyLine, Indented;
    assert (a + b)[i] == a[i];
    if i > 0 { GoesBefore(name, a, b, i - 1); }
  }

  lemma {:induction false} StayingBefore(name: string, a: seq<string>, b: seq<string>, n: nat)
    requires n <= |a| && forall l :: l in a ==> !IsKeyLine(name, l)
    ensures Staying(name, a + b, n) == a[..n]
  {
    hide IsKeyLine, Goes;
    if n > 0 {
      StayingBefore(name, a, b, n - 1);
      GoesBefore(name, a, b, n - 1);
      NothingGoes(name, a, n - 1);
      assert (a + b)[n - 1] == a[n - 1] && a[..n] == a[..n - 1] + [a[n - 1]];
    }
  }

  /** Lines that hold no block of this name stay; what follows them is stripped as on its own. */
  lemma {:induction false} StayingAfter(name: string, a: seq<string>, b: seq<string>, n: nat)
    requires n <= |b| && forall l :: l in a ==> !IsKeyLine(name, l)
    ensures Staying(name, a + b, |a| + n) == a + Staying(name, b, n)
  {
    hide IsKeyLine, Goes;
    if n == 0 {
      StayingBefore(name, a, b, |a|);
      assert a[..|a|] == a && a + [] == a;
    } else {
      StayingAfter(name, a, b, n - 1);
      GoesAfter(name, a, b, n - 1);
      assert (a + b)[|a| + n - 1] == b[n - 1];
      Assoc(a, Staying(name, b, n - 1), if Goes(name, b, n - 1) then [] else [b[n - 1]]);
    }
  }

  lemma {:induction false} StripAfter(name: string, a: seq<string>, b: seq<string>)
    requires forall l :: l in a ==> !IsKeyLine(name, l)
    ensures StripKey(name, a + b) == a + StripKey(name, b)
  {
    StayingAfter(name, a, b, |b|);
  }

  // ----- merging twice -----

  /** What a document keeps through a merge: its header lines outside the block, and its body. */
  function Rest(name: string, text: string): (seq<string>, string) {
    (StripKey(name, SplitDoc(text).0), SplitDoc(text).1)
  }

  lemma {:induction false} RestIsClean(name: string, text: string)
    ensures var s := Rest(name, text).0;
      && FenceFree(s) && (forall l :: l in s ==> '\n' !in l) && (forall l :: l in s ==> !IsKeyLine(name, l))
  {
    hide IsFence, IsKeyLine, SplitDoc;
    HeaderIsClean(text);
    var header := SplitDoc(text).0;
    StayingMembers(name, header, |header|);
  }

  /** The block as a reader sees it holds no fence, and stripping takes away all of it. */
  ghost predicate Contained(name: string, block: seq<string>) {
    FenceFree(Physical(block)) && StripKey(name, Physical(block)) == []
  }

  lemma {:induction false} MergedLines(name: string, text: string, block: seq<string>)
    requires block != []
    ensures var (s, body) := Rest(name, text);
      Split(Merged(name, text, block)) == ["---"] + (s + Physical(block)) + ["---"] + Split(body)
  {
    hide SplitDoc, StripKey, Physical, Split, IsFence, IsKeyLine;
    var (s, body) := Rest(name, text);
    RestIsClean(name, text);
    SplitAssembled(s + block, body);
    PhysicalAppend(s, block);
    PhysicalPlain(s);
  }

  /** After merging a contained block the document splits into the same other header lines, the block, and the
      same body, byte for byte. */
  lemma {:induction false} MergeKeepsTheRest(name: string, text: string, block: seq<string>)
    requires block != [] && Contained(name, block)
    ensures var (s, body) := Rest(name, text);
      && SplitDoc(Merged(name, text, block)) == (s + Physical(block), body)
      && Rest(name, Merged(name, text, block)) == (s, body)
  {
    hide SplitDoc, StripKey, Physical, Split, IsFence, IsKeyLine, Merged;
    var (s, body) := Rest(name, text);
    RestIsClean(name, text);
    MergedLines(name, text, block);
    DashesAreFence();
    FenceFreeAppend(s, Physical(block));
    SplitAtFence(Merged(name, text, block), s + Physical(block), "---", Split(body));
    JoinSplit(body);
    StripAfter(name, s, Physical(block));
    assert s + [] == s;
  }

  lemma {:induction false} FenceFreeAppend(a: seq<string>, b: seq<string>)
    requires FenceFree(a) && FenceFree(b)
    ensures FenceFree(a + b)
  {
    hide IsFence;
  }

  /** The last merge wins exactly when the first block was contained: otherwise a line of the first block, or a
      second header end, stays behind. */
  lemma {:induction false} LastMergeWins(name: string, text: string, first: seq<string>, second: seq<string>)
    requires first != [] && second != []
    ensures Merged(name, Merged(name, text, first), second) == Merged(name, text, second) <==> Contained(name, first)
  {
    hide SplitDoc, StripKey, Physical, Split, IsFence, IsKeyLine, Contained, Merged;
    if Contained(name, first) {
      MergeKeepsTheRest(name, text, first);
      MergedByRest(name, text, second);
      MergedByRest(name, Merged(name, text, first), second);
    } else {
      UncontainedLeavesMore(name, text, first, second);
    }
  }

  lemma {:induction false} MergedByRest(name: string, text: string, block: seq<string>)
    ensures Merged(name, text, block) == Assemble(Rest(name, text).0 + block, Rest(name, text).1)
  {
  }

  lemma {:induction false} UncontainedLeavesMore(name: string, text: string, first: seq<string>, second: seq<string>)
    requires first != [] && second != [] && !Contained(name, first)
    ensures |Merged(name, Merged(name, text, first), second)| > |Merged(name, text, second)|
  {
    hide SplitDoc, StripKey, Physical, Split, IsFence, IsKeyLine, Merged, Assemble;
    var (s, body) := Rest(name, text);
    var p := Physical(first);
    var once := Merged(name, text, first);
    RestIsClean(name, text);
    MergedLines(name, text, first);
    MergedByRest(name, text, second);
    MergedByRest(name, once, second);
    if FenceFree(p) {
      DashesAreFence();
      FenceFreeAppend(s, p);
      SplitAtFence(once, s + p, "---", Split(body));
      JoinSplit(body);
      StripAfter(name, s, p);
      LongerHeader(s, StripKey(name, p), second, body);
    } else {
      var a, f, b := FirstFence(p);
      FenceFreeAppend(s, a);
      FenceSplit(s, a, f, b, Split(body));
      SplitAtFence(once, s + a, f, b + ["---"] + Split(body));
      StripAfter(name, s, a);
      LongerBody(b, body);
      LongerText(s, StripKey(name, a), second, body, Join(b + ["---"] + Split(body)));
    }
  }

  lemma {:induction false} FenceSplit(s: seq<string>, a: seq<string>, f: string, b: seq<string>, rest: seq<string>)
    ensures ["---"] + (s + (a + [f] + b)) + ["---"] + rest == ["---"] + (s + a) + [f] + (b + ["---"] + rest)
  {
  }

  lemma {:induction false} FirstFence(p: seq<string>) returns (a: seq<string>, f: string, b: seq<string>)
    requires !FenceFree(p)
    ensures p == a + [f] + b && FenceFree(a) && IsFence(f)
  {
    hide IsFence;
    var k := FenceFrom(p, 0);
    assert k != -1 by {
      var l :| l in p && IsFence(l);
      var j :| 0 <= j < |p| && p[j] == l;
    }
    a, f, b := p[..k], p[k], p[k + 1..];
    forall l | l in a ensures !IsFence(l) {
      var j :| 0 <= j < |a| && a[j] == l;
      assert l == p[j];
    }
  }

  // ----- lengths -----

  function Size(lines: seq<string>): nat {
    if lines == [] then 0 else |lines[0]| + 1 + Size(lines[1..])
  }

  lemma {:induction false} SizeAppend(a: seq<string>, b: seq<string>)
    ensures Size(a + b) == Size(a) + Size(b)
  {
    if a == [] {
      assert a + b == b;
    } else {
      assert (a + b)[1..] == a[1..] + b;
      SizeAppend(a[1..], b);
    }
  }

  lemma {:induction false} JoinSize(lines: seq<string>)
    requires lines != []
    ensures |Join(lines)| == Size(lines) - 1
  {
    if |lines| > 1 { JoinSize(lines[1..]); }
  }

  lemma {:induction false} AssembleSize(header: seq<string>, body: string)
    requires header != []
    ensures |Assemble(header, body)| == Size(header) + 8 + |body|
  {
    JoinSize(header);
  }

  lemma {:induction false} LongerHeader(s: seq<string>, x: seq<string>, second: seq<string>, body: string)
    requires x != [] && second != []
    ensures |Assemble(s + x + second, body)| > |Assemble(s + second, body)|
  {
    hide Assemble;
    AssembleSize(s + x + second, body);
    AssembleSize(s + second, body);
    SizeAppend(s + x, second);
    SizeAppend(s, x);
    SizeAppend(s, second);
  }

  lemma {:induction false} LongerText(s: seq<string>, x: seq<string>, second: seq<string>, body: string, body': string)
    requires second != [] && |body'| > |body|
    ensures |Assemble(s + x + second, body')| > |Assemble(s + second, body)|
  {
    hide Assemble;
    AssembleSize(s + x + second, body');
    AssembleSize(s + second, body);
    SizeAppend(s + x, second);
    SizeAppend(s, x);
    SizeAppend(s, second);
  }

  lemma {:induction false} LongerBody(b: seq<string>, body: string)
    ensures |Join(b + ["---"] + Split(body))| > |body|
  {
    hide Split, Join;
    var lines := b + ["---"] + Split(body);
    JoinSize(lines);
    SizeAppend(b + ["---"], Split(body));
    JoinSize(Split(body));
    JoinSplit(body);
    SizeAppend(b, ["---"]);
    assert Size(["---"]) == 4 + Size([]);
  }

  // ----- the old block -----

  /** A list item, which may stand at the margin under its key. */
  predicate IsItem(line: string) {
    line == "-" || (|line| > 1 && line[0] == '-' && IsSpace(line[1]))
  }

  /** A line that neither ends a block nor is part of one: blank, or a comment at the margin. */
  predicate Filler(line: string) {
    Blank(line) || line[0] == '#'
  }

  /** A line that goes on with the block above it: indented, or a list item. */
  predicate Continues(line: string) {
    !Filler(line) && (Indented(line) || IsItem(line))
  }

  /** The block `name` is open below the first `n` lines: its key was the last one to start something at the margin. */
  predicate BlockOpen(name: string, lines: seq<string>, n: nat)
    requires n <= |lines|
  {
    n > 0 && (
      IsKeyLine(name, lines[n - 1])
      || ((Filler(lines[n - 1]) || Continues(lines[n - 1])) && BlockOpen(name, lines, n - 1)))
  }

  /** Line `i` is part of the block as YAML reads it: its key, or a line that goes on with it, whatever blank lines and
      comments stand between. */
  predicate InBlock(name: string, lines: seq<string>, i: nat)
    requires i < |lines|
  {
    IsKeyLine(name, lines[i]) || (Continues(lines[i]) && BlockOpen(name, lines, i))
  }

  /** Of the first `n` lines those that are not blank and not part of the block. */
  function Others(name: string, lines: seq<string>, n: nat): seq<string>
    requires n <= |lines|
  {
    if n == 0 then []
    else Others(name, lines, n - 1) + if Blank(lines[n - 1]) || InBlock(name, lines, n - 1) then [] else [lines[n - 1]]
  }

  function Filled(lines: seq<string>): seq<string> {
    if lines == [] then []
    else Filled(lines[..|lines| - 1]) + if Blank(lines[|lines| - 1]) then [] else [lines[|lines| - 1]]
  }

  /** Line `i` is indented, and so is every line between it and a key line of the block. */
  predicate UnderKey(name: string, lines: seq<string>, i: nat)
    requires i < |lines|
  {
    exists k :: 0 <= k < i && IsKeyLine(name, lines[k]) && AllIndented(lines, k + 1, i + 1)
  }

  predicate AllIndented(lines: seq<string>, from: nat, to: nat)
    requires from <= to <= |lines|
  {
    forall m :: from <= m < to ==> Indented(lines[m])
  }

  /** The block is written without a gap: none of its lines stands at the margin but its key, and no line between them
      does, as an empty line or a comment would. */
  ghost predicate Compact(name: string, lines: seq<string>) {
    forall i :: 0 <= i < |lines| && Continues(lines[i]) && BlockOpen(name, lines, i) ==>
      IsKeyLine(name, lines[i]) || UnderKey(name, lines, i)
  }

  lemma {:induction false} GoesIffUnderKey(name: string, lines: seq<string>, i: nat)
    requires i < |lines|
    ensures Goes(name, lines, i) <==> IsKeyLine(name, lines[i]) || UnderKey(name, lines, i)
  {
    hide IsKeyLine, Indented;
    if !IsKeyLine(name, lines[i]) {
      if Goes(name, lines, i) {
        GoesIffUnderKey(name, lines, i - 1);
        if IsKeyLine(name, lines[i - 1]) {
          assert AllIndented(lines, i - 1 + 1, i + 1);
        } else {
          var k :| 0 <= k < i - 1 && IsKeyLine(name, lines[k]) && AllIndented(lines, k + 1, i);
          assert AllIndented(lines, k + 1, i + 1);
        }
      }
      if UnderKey(name, lines, i) {
        var k :| 0 <= k < i && IsKeyLine(name, lines[k]) && AllIndented(lines, k + 1, i + 1);
        assert Indented(lines[i]);
        GoesIffUnderKey(name, lines, i - 1);
        if k < i - 1 { assert AllIndented(lines, k + 1, i - 1 + 1); }
      }
    }
  }

  /** Under its key a block is open. */
  lemma {:induction false} OpenUnderKey(name: string, lines: seq<string>, k: nat, i: nat)
    requires k < i <= |lines| && IsKeyLine(name, lines[k]) && AllIndented(lines, k + 1, i)
    ensures BlockOpen(name, lines, i)
  {
    hide IsKeyLine;
    if k < i - 1 {
      assert Indented(lines[i - 1]);
      OpenUnderKey(name, lines, k, i - 1);
    }
  }

  /** What is stripped is blank or part of the block. */
  lemma {:induction false} GoesOnlyInBlock(name: string, lines: seq<string>, i: nat)
    requires i < |lines| && Goes(name, lines, i)
    ensures Blank(lines[i]) || InBlock(name, lines, i)
  {
    hide IsKeyLine;
    GoesIffUnderKey(name, lines, i);
    if !IsKeyLine(name, lines[i]) {
      var k :| 0 <= k < i && IsKeyLine(name, lines[k]) && AllIndented(lines, k + 1, i + 1);
      assert AllIndented(lines, k + 1, i) && Indented(lines[i]);
      OpenUnderKey(name, lines, k, i);
    }
  }

  lemma {:induction false} FilledAppend(a: seq<string>, b: seq<string>)
    ensures Filled(a + b) == Filled(a) + Filled(b)
  {
    if b == [] {
      assert a + b == a;
    } else {
      assert (a + b)[..|a + b| - 1] == a + b[..|b| - 1];
      FilledAppend(a, b[..|b| - 1]);
    }
  }

  /** A line of the block that is not stripped stays behind among the first `n`. */
  ghost predicate StaysBehind(name: string, lines: seq<string>, n: nat)
    requires n <= |lines|
  {
    exists i :: 0 <= i < n && LeftBehind(name, lines, i)
  }

  lemma {:induction false} StrippedAndOthers(name: string, lines: seq<string>, n: nat)
    requires n <= |lines|
    ensures var kept, others := Filled(Staying(name, lines, n)), Others(name, lines, n);
      && |kept| >= |others| && (|kept| == |others| ==> !StaysBehind(name, lines, n))
      && (!StaysBehind(name, lines, n) ==> kept == others)
  {
    hide Staying, Filled, InBlock, Blank, LeftBehind, StaysBehind;
    if n == 0 {
      NothingStripped(name, lines);
    } else {
      StrippedAndOthers(name, lines, n - 1);
      StayingFilled(name, lines, n);
      StaysBehindStep(name, lines, n);
    }
  }

  /** Line `n - 1` stays behind. */
  predicate LeftBehind(name: string, lines: seq<string>, i: nat)
    requires i < |lines|
  {
    !Blank(lines[i]) && InBlock(name, lines, i) && !Goes(name, lines, i)
  }

  lemma {:induction false} StaysBehindStep(name: string, lines: seq<string>, n: nat)
    requires 0 < n <= |lines|
    ensures StaysBehind(name, lines, n) <==> StaysBehind(name, lines, n - 1) || LeftBehind(name, lines, n - 1)
  {
    hide LeftBehind;
  }

  /** What line `n - 1` adds to the lines kept and to those outside the block. */
  lemma {:induction false} StayingFilled(name: string, lines: seq<string>, n: nat)
    requires 0 < n <= |lines|
    ensures var line := lines[n - 1];
      var outside := if Blank(line) || InBlock(name, lines, n - 1) then [] else [line];
      && Others(name, lines, n) == Others(name, lines, n - 1) + outside
      && (LeftBehind(name, lines, n - 1) ==> outside == [])
      && Filled(Staying(name, lines, n))
         == Filled(Staying(name, lines, n - 1)) + if LeftBehind(name, lines, n - 1) then [line] else outside
  {
    hide IsKeyLine, Indented, Goes, InBlock, Blank, Filled;
    var line := lines[n - 1];
    FilledAppend(Staying(name, lines, n - 1), if Goes(name, lines, n - 1) then [] else [line]);
    FilledOne(line);
    if Goes(name, lines, n - 1) { GoesOnlyInBlock(name, lines, n - 1); }
  }

  lemma {:induction false} FilledOne(line: string)
    ensures Filled([line]) == (if Blank(line) then [] else [line]) && Filled([]) == []
  {
    hide Blank;
    assert [line][..0] == [];
  }

  lemma {:induction false} StaysBehindIff(name: string, lines: seq<string>)
    ensures StaysBehind(name, lines, |lines|) <==> !Compact(name, lines)
  {
    hide IsKeyLine, Indented, Goes, UnderKey, IsItem, BlockOpen, LeftBehind;
    forall i | 0 <= i < |lines|
      ensures LeftBehind(name, lines, i)
        <==> Continues(lines[i]) && BlockOpen(name, lines, i) && !IsKeyLine(name, lines[i]) && !UnderKey(name, lines, i)
    {
      LeftBehindIff(name, lines, i);
    }
  }

  lemma {:induction false} LeftBehindIff(name: string, lines: seq<string>, i: nat)
    requires i < |lines|
    ensures LeftBehind(name, lines, i)
      <==> Continues(lines[i]) && BlockOpen(name, lines, i) && !IsKeyLine(name, lines[i]) && !UnderKey(name, lines, i)
  {
    hide IsKeyLine, Indented, Goes, UnderKey, IsItem, BlockOpen;
    GoesIffUnderKey(name, lines, i);
  }

  lemma {:induction false} NothingStripped(name: string, lines: seq<string>)
    ensures Filled(Staying(name, lines, 0)) == [] == Others(name, lines, 0) && !StaysBehind(name, lines, 0)
  {
  }

  /** After a merge the header holds the lines that were not stripped, then the new block.  But for blank lines, these
      are exactly the lines outside the old block if and only if the old block was written without a gap: otherwise
      a stale line of it stays. */
  lemma {:induction false} MergeReplacesBlockIff(name: string, text: string, block: seq<string>)
    requires block != [] && Contained(name, block)
    ensures var header, kept := SplitDoc(text).0, Rest(name, text).0;
      && SplitDoc(Merged(name, text, block)).0 == kept + Physical(block)
      && (Filled(kept) == Others(name, header, |header|) <==> Compact(name, header))
  {
    hide SplitDoc, Merged, Contained, Physical, Compact, StaysBehind;
    var header := SplitDoc(text).0;
    MergeKeepsTheRest(name, text, block);
    StrippedAndOthers(name, header, |header|);
    StaysBehindIff(name, header);
  }

  /** Such a block: a blank line inside it, and the line below it stays when the block is stripped. */
  lemma {:induction false} GapLeavesStaleLine()
    ensures var header := ["classification:", "  family: \"a\"", "", "  confidence: 1", "title: x"];
      && StripKey(NAME, header) == ["", "  confidence: 1", "title: x"]
      && Others(NAME, header, |header|) == ["title: x"]
  {
    hide IsKeyLine, Blank;
    var header := ["classification:", "  family: \"a\"", "", "  confidence: 1", "title: x"];
    GapLines();
    assert Staying(NAME, header, 0) == [] && Others(NAME, header, 0) == [];
    assert Goes(NAME, header, 0) && Goes(NAME, header, 1) && !Goes(NAME, header, 2) && !Goes(NAME, header, 3);
    assert !Goes(NAME, header, 4);
    assert BlockOpen(NAME, header, 1) && BlockOpen(NAME, header, 2) && BlockOpen(NAME, header, 3);
    assert BlockOpen(NAME, header, 4) && InBlock(NAME, header, 1) && InBlock(NAME, header, 3);
    assert Staying(NAME, header, 2) == [] && Others(NAME, header, 3) == [];
    assert Staying(NAME, header, 3) == [""] && Staying(NAME, header, 4) == ["", "  confidence: 1"];
    assert Others(NAME, header, 4) == [];
  }

  lemma {:induction false} GapLines()
    ensures IsKeyLine(NAME, "classification:") && !IsKeyLine(NAME, "  family: \"a\"") && !IsKeyLine(NAME, "")
    ensures !IsKeyLine(NAME, "  confidence: 1") && !IsKeyLine(NAME, "title: x")
    ensures !Blank("  family: \"a\"") && Blank("") && !Blank("  confidence: 1") && !Blank("title: x")
  {
    assert "classification:"[..14] == "classification" && "classification:"[14..] == ":";
    assert "  family: \"a\""[0] == ' ' && "  confidence: 1"[0] == ' ' && NAME[0] == 'c' && "title: x"[0] == 't';
    assert !IsSpace("  family: \"a\""[2]) && !IsSpace("  confidence: 1"[2]);
  }

  // ----- when a classification is contained -----

  /** A line of the header that is stripped together with the block, and does not end the header. */
  ghost predicate Fits(name: string, line: string) {
    (Indented(line) || IsKeyLine(name, line)) && !IsFence(line)
  }

  ghost predicate AllFit(name: string, lines: seq<string>) {
    forall l :: l in lines ==> Fits(name, l)
  }

  /** Every piece of a text after its first newline fits. */
  ghost predicate TailFits(name: string, t: string) {
    AllFit(name, Split(t)[1..])
  }

  ghost predicate KeyFits(name: string, key: string) {
    !IsFence(Split(key + ":")[0]) && TailFits(name, key + ":")
  }

  ghost predicate ScalarFits(name: string, v: Scalar) {
    v.Str? ==> TailFits(name, v.s + "\"")
  }

  ghost predicate ValueFits(name: string, v: Value) {
    match v
    case One(scalar) => ScalarFits(name, scalar)
    case Dict(entries) => forall k :: k in entries ==> KeyFits(name, k) && ScalarFits(name, entries[k])
    case List(items) => forall x :: x in items ==> ScalarFits(name, x)
  }

  /** In keys (each up to its colon) and strings (each up to its closing quote) every piece after a newline is indented
      or opens the block again, and no piece is a fence. */
  ghost predicate ClassificationFits(name: string, c: map<string, Value>) {
    forall k :: k in c ==> KeyFits(name, k) && ValueFits(name, c[k])
  }

  /** The name of a block is one plain word. */
  ghost predicate IsWord(name: string) {
    name != "" && forall ch :: ch in name ==> !IsSpace(ch) && ch != ':' && ch != '"' && ch != '\\'
  }

  // ----- pieces of a line -----

  lemma {:induction false} PiecesOfLine(s: string)
    ensures forall l :: l in Split(s) ==> '\n' !in l
    ensures s != "" && s[|s| - 1] != '\n'
      ==> var last := Split(s)[|Split(s)| - 1]; last != "" && last[|last| - 1] == s[|s| - 1]
  {
    hide Split;
    SplitLineFree(s);
    if s != "" && s[|s| - 1] != '\n' {
      var front := s[..|s| - 1];
      assert s == front + [s[|s| - 1]];
      SplitConcat(front, [s[|s| - 1]]);
      SplitSingle([s[|s| - 1]]);
    }
  }

  // ----- escaping does not change what fits -----

  function EscapeChar(ch: char): string {
    if ch == '\\' || ch == '"' then ['\\', ch] else [ch]
  }

  lemma {:induction false} EscapeCons(ch: char, p: string)
    ensures Escape([ch] + p) == EscapeChar(ch) + Escape(p)
  {
    assert ([ch] + p)[1..] == p;
  }

  /** Escaping a text escapes its pieces. */
  lemma {:induction false} EscapedPieces(s: string)
    ensures |Split(Escape(s))| == |Split(s)|
    ensures forall i :: 0 <= i < |Split(s)| ==> Split(Escape(s))[i] == Escape(Split(s)[i])
  {
    if s == "" {
    } else if s[0] == '\n' {
      EscapedPieces(s[1..]);
      assert Escape(s)[1..] == Escape(s[1..]);
    } else {
      var rest := Split(s[1..]);
      EscapedPieces(s[1..]);
      SplitPrefix(EscapeChar(s[0]), Escape(s[1..]));
      EscapeCons(s[0], rest[0]);
    }
  }

  lemma {:induction false} EscapeStarts(p: string)
    ensures Escape(p) == "" <==> p == ""
    ensures p != "" ==> Escape(p)[0] == if p[0] == '"' then '\\' else p[0]
  {
  }

  /** Up to a character that is escaped, the escaped text reads as the text. */
  lemma {:induction false} EscapeKeepsIndent(p: string, q: string)
    requires q == "" || q == "\""
    ensures Indented(Escape(p) + q) <==> Indented(p + q)
  {
    EscapeStarts(p);
  }

  lemma {:induction false} EscapeKeepsColon(p: string, q: string)
    requires q == "" || q == "\""
    ensures var e, r := TrimLeft(Escape(p) + q, IsSpace), TrimLeft(p + q, IsSpace);
      e != "" && e[0] == ':' <==> r != "" && r[0] == ':'
  {
    EscapeStarts(p);
    if p != "" && IsSpace(p[0]) {
      EscapeKeepsColon(p[1..], q);
      EscapeCons(p[0], p[1..]);
      assert p == [p[0]] + p[1..];
      TrimStep(p[0], p[1..] + q);
      TrimStep(p[0], Escape(p[1..]) + q);
      Assoc([p[0]], p[1..], q);
      Assoc([p[0]], Escape(p[1..]), q);
    }
  }

  lemma {:induction false} TrimStep(ch: char, t: string)
    requires IsSpace(ch)
    ensures TrimLeft([ch] + t, IsSpace) == TrimLeft(t, IsSpace)
  {
    assert ([ch] + t)[1..] == t;
  }

  lemma {:induction false} KeyLineStep(name: string, line: string)
    requires name != "" && line != ""
    ensures IsKeyLine(name, line) <==> name[0] == line[0] && IsKeyLine(name[1..], line[1..])
  {
    if |name| <= |line| {
      assert line[..|name|] == [line[0]] + line[1..][..|name| - 1];
      assert name == [name[0]] + name[1..];
      assert line[|name|..] == line[1..][|name| - 1..];
    }
  }

  lemma {:induction false} EscapeKeepsName(name: string, p: string, q: string)
    requires (q == "" || q == "\"") && forall ch :: ch in name ==> ch != '"' && ch != '\\'
    ensures IsKeyLine(name, Escape(p) + q) <==> IsKeyLine(name, p + q)
  {
    hide IsKeyLine;
    EscapeStarts(p);
    if name == "" {
      KeyLineOfNothing(Escape(p) + q);
      KeyLineOfNothing(p + q);
      EscapeKeepsColon(p, q);
    } else if p == "" {
    } else {
      KeyLineStep(name, Escape(p) + q);
      KeyLineStep(name, p + q);
      assert name[0] in name;
      if name[0] == p[0] {
        forall ch | ch in name[1..] ensures ch in name {}
        EscapeKeepsName(name[1..], p[1..], q);
        assert (p + q)[1..] == p[1..] + q && (Escape(p) + q)[1..] == Escape(p[1..]) + q;
      }
    }
  }

  lemma {:induction false} KeyLineOfNothing(line: string)
    ensures IsKeyLine("", line) <==> var rest := TrimLeft(line, IsSpace); rest != "" && rest[0] == ':'
  {
    assert line[..0] == "" && line[0..] == line;
  }

  lemma {:induction false} EscapeKeepsFence(p: string, q: string)
    requires q == "" || q == "\""
    ensures IsFence(Escape(p) + q) <==> IsFence(p + q)
  {
    if q == "" && '"' !in p && '\\' !in p {
      EscapePlain(p);
    } else {
      if '"' in p || '\\' in p { EscapedShows(p); }
      SpecialIsNoFence(Escape(p) + q);
      SpecialIsNoFence(p + q);
    }
  }

  lemma {:induction false} EscapePlain(p: string)
    requires '"' !in p && '\\' !in p
    ensures Escape(p) == p
  {
    if p != "" {
      EscapePlain(p[1..]);
      assert p == [p[0]] + p[1..];
    }
  }

  lemma {:induction false} EscapedShows(p: string)
    requires '"' in p || '\\' in p
    ensures '\\' in Escape(p)
  {
    if p[0] != '"' && p[0] != '\\' { EscapedShows(p[1..]); }
  }

  lemma {:induction false} SpecialIsNoFence(line: string)
    requires '"' in line || '\\' in line
    ensures !IsFence(line)
  {
    StripKeeps(line, if '"' in line then '"' else '\\');
  }

  lemma {:induction false} EscapeKeepsFit(name: string, p: string, q: string)
    requires IsWord(name) && (q == "" || q == "\"")
    ensures Fits(name, Escape(p) + q) <==> Fits(name, p + q)
  {
    hide IsFence, Indented, IsKeyLine;
    EscapeKeepsIndent(p, q);
    EscapeKeepsName(name, p, q);
    EscapeKeepsFence(p, q);
  }

  /** A string fits as printed exactly when it fits as it is. */
  lemma {:induction false} EscapeKeepsTail(name: string, t: string)
    requires IsWord(name)
    ensures TailFits(name, Escape(t) + "\"") <==> TailFits(name, t + "\"")
  {
    hide Fits, IsWord, Split;
    var p, q := Split(t), "\"";
    var n := |p| - 1;
    EscapedPieces(t);
    SplitSingle(q);
    SplitConcat(t, q);
    SplitConcat(Escape(t), q);
    forall i | 0 <= i <= n
      ensures Fits(name, Split(Escape(t) + q)[i]) <==> Fits(name, Split(t + q)[i])
    {
      EscapeKeepsFit(name, p[i], if i == n then q else "");
      assert Escape(p[i]) + "" == Escape(p[i]) && p[i] + "" == p[i];
    }
    SamePieces(name, Split(Escape(t) + q)[1..], Split(t + q)[1..]);
  }

  lemma {:induction false} SamePieces(name: string, a: seq<string>, b: seq<string>)
    requires |a| == |b| && forall i :: 0 <= i < |a| ==> (Fits(name, a[i]) <==> Fits(name, b[i]))
    ensures AllFit(name, a) <==> AllFit(name, b)
  {
    hide Fits;
    if AllFit(name, a) {
      forall l | l in b ensures Fits(name, l) { var i :| 0 <= i < |b| && b[i] == l; assert a[i] in a; }
    }
    if AllFit(name, b) {
      forall l | l in a ensures Fits(name, l) { var i :| 0 <= i < |a| && a[i] == l; assert b[i] in b; }
    }
  }

  // ----- the printed lines -----

  lemma {:induction false} AllFitAppend(name: string, a: seq<string>, b: seq<string>)
    ensures AllFit(name, a + b) <==> AllFit(name, a) && AllFit(name, b)
  {
    hide Fits;
    assert forall l :: l in a + b <==> l in a || l in b;
  }

  /** An indented line fits unless it is a fence; a character that is neither space nor dash rules that out. */
  lemma {:induction false} IndentedFits(name: string, indent: string, p: string)
    requires Indented(indent) && forall ch :: ch in indent ==> IsSpace(ch)
    ensures Fits(name, indent + p) <==> !IsFence(p)
  {
    StripIndent(indent, p);
  }

  lemma {:induction false} StripIndent(indent: string, p: string)
    requires forall ch :: ch in indent ==> IsSpace(ch)
    ensures Strip(indent + p) == Strip(p)
  {
    if indent == "" {
      assert indent + p == p;
    } else {
      assert indent[0] in indent && (indent + p)[1..] == indent[1..] + p;
      forall ch | ch in indent[1..] ensures IsSpace(ch) {}
      StripIndent(indent[1..], p);
    }
  }

  lemma {:induction false} ShownIsNoFence(line: string, i: nat)
    requires i < |line| && !IsSpace(line[i]) && line[i] != '-'
    ensures !IsFence(line)
  {
    StripKeeps(line, line[i]);
    assert line[i] !in "---";
  }

  /** Up to its colon a line opens the block or not, and is no fence, whatever follows. */
  lemma {:induction false} FitsByColon(name: string, x: string, y: string)
    requires IsWord(name)
    ensures Fits(name, x + ":" + y) <==> Fits(name, x + ":")
  {
    hide IsKeyLine, IsFence;
    ShownIsNoFence(x + ":" + y, |x|);
    ShownIsNoFence(x + ":", |x|);
    KeyLineByColon(name, x, y);
  }

  lemma {:induction false} KeyLineByColon(name: string, x: string, y: string)
    requires forall ch :: ch in name ==> ch != ':'
    ensures IsKeyLine(name, x + ":" + y) <==> IsKeyLine(name, x + ":")
  {
    hide IsKeyLine;
    if name == "" {
      KeyLineOfNothing(x + ":" + y);
      KeyLineOfNothing(x + ":");
      ColonAfterSpace(x, y);
    } else if x == "" {
      assert name[0] in name;
      KeyLineStep(name, x + ":" + y);
      KeyLineStep(name, x + ":");
    } else {
      forall ch | ch in name[1..] ensures ch in name {}
      KeyLineStep(name, x + ":" + y);
      KeyLineStep(name, x + ":");
      assert (x + ":" + y)[1..] == x[1..] + ":" + y && (x + ":")[1..] == x[1..] + ":";
      KeyLineByColon(name[1..], x[1..], y);
    }
  }

  lemma {:induction false} ColonAfterSpace(x: string, y: string)
    ensures var e, r := TrimLeft(x + ":" + y, IsSpace), TrimLeft(x + ":", IsSpace);
      e != "" && e[0] == ':' <==> r != "" && r[0] == ':'
  {
    if x != "" && IsSpace(x[0]) {
      assert (x + ":" + y)[1..] == x[1..] + ":" + y && (x + ":")[1..] == x[1..] + ":";
      ColonAfterSpace(x[1..], y);
    }
  }

  /** A line with a key fits piece by piece exactly when its key does, and the pieces its value adds. */
  lemma {:induction false} KeyedLine(name: string, indent: string, key: string, value: string)
    requires IsWord(name) && Indented(indent) && forall ch :: ch in indent ==> ch == ' '
    ensures AllFit(name, Split(indent + key + ":" + value)) <==> KeyFits(name, key) && TailFits(name, value)
  {
    hide Fits, IsWord, Split, IsFence, Indented;
    var k, v := key + ":", Split(value);
    var p := Split(k);
    var n := |p| - 1;
    Assoc(indent, key, ":");
    Assoc(indent + k, value, "");
    SplitPrefix(indent, k);
    SplitConcat(indent + k, value);
    IndentedFits(name, indent, p[0]);
    PiecesOfLine(k);
    var last := p[n][..|p[n]| - 1];
    assert p[n] == last + ":";
    if n == 0 {
      FitsByColon(name, indent + last, v[0]);
      assert indent + p[0] == indent + last + ":";
      assert Split(indent + k + value) == [indent + p[0] + v[0]] + v[1..];
      AllFitAppend(name, [indent + p[0] + v[0]], v[1..]);
    } else {
      FitsByColon(name, last, v[0]);
      var mid := p[1..n];
      assert Split(indent + k) == [indent + p[0]] + mid + [p[n]];
      assert Split(indent + k + value) == [indent + p[0]] + mid + [p[n] + v[0]] + v[1..];
      assert p[1..] == mid + [p[n]];
      AllFitAppend(name, mid, [p[n]]);
      AllFitAppend(name, [indent + p[0]] + mid + [p[n] + v[0]], v[1..]);
      AllFitAppend(name, [indent + p[0]] + mid, [p[n] + v[0]]);
      AllFitAppend(name, [indent + p[0]], mid);
    }
  }

  /** What a printed scalar adds. */
  lemma {:induction false} ScalarTail(name: string, v: Scalar, before: string)
    requires IsWord(name) && '\n' !in before
    ensures TailFits(name, before + YamlScalar(v)) <==> ScalarFits(name, v)
    ensures !IsFence(Split(before + YamlScalar(v))[0])
  {
    hide Fits, IsWord, Split, IsFence;
    var y := YamlScalar(v);
    SplitPrefix(before, y);
    var q := Split(y);
    match v
    case Str(t) =>
      var e := Escape(t) + "\"";
      SplitPrefix("\"", e);
      assert y == "\"" + e;
      EscapeKeepsTail(name, t);
      ShownIsNoFence(before + ("\"" + Split(e)[0]), |before|);
    case Bool(b) =>
      SplitSingle(y);
      ShownIsNoFence(before + y, |before|);
    case Number(repr) =>
      NumberIsShown(repr);
      SplitSingle(y);
      ShownIsNoFence(before + y, |before| + |y| - 1);
  }

  lemma {:induction false} NumberIsShown(repr: NumberText)
    ensures '\n' !in repr && !IsSpace(repr[|repr| - 1])
  {
    assert repr[|repr| - 1] in repr;
  }

  lemma {:induction false} DictFits(name: string, keys: seq<string>, entries: map<string, Scalar>)
    requires IsWord(name) && forall k :: k in keys ==> k in entries
    ensures AllFit(name, Physical(DictLines(keys, entries)))
      <==> forall k :: k in keys ==> KeyFits(name, k) && ScalarFits(name, entries[k])
  {
    hide Fits, IsWord, Split, YamlScalar, KeyFits, ScalarFits, TailFits;
    if keys != [] {
      var k := keys[0];
      var v := entries[k];
      assert "    " + k + ": " + YamlScalar(v) == "    " + k + ":" + (" " + YamlScalar(v));
      KeyedLine(name, "    ", k, " " + YamlScalar(v));
      ScalarTail(name, v, " ");
      DictFits(name, keys[1..], entries);
      AllFitAppend(name, Split("    " + k + ": " + YamlScalar(v)), Physical(DictLines(keys[1..], entries)));
      assert keys == [k] + keys[1..];
    }
  }

  lemma {:induction false} ItemsFit(name: string, items: seq<Scalar>)
    requires IsWord(name)
    ensures AllFit(name, Physical(ItemLines(items))) <==> forall x :: x in items ==> ScalarFits(name, x)
  {
    hide Fits, IsWord, Split, YamlScalar, ScalarFits, TailFits;
    if items != [] {
      ItemFits(name, items[0]);
      ItemsFit(name, items[1..]);
      AllFitAppend(name, Split("    - " + YamlScalar(items[0])), Physical(ItemLines(items[1..])));
      assert items == [items[0]] + items[1..];
    }
  }

  lemma {:induction false} ItemFits(name: string, v: Scalar)
    requires IsWord(name)
    ensures AllFit(name, Split("    - " + YamlScalar(v))) <==> ScalarFits(name, v)
  {
    hide Fits, IsWord, Split, YamlScalar, ScalarFits, IsFence;
    var line := "- " + YamlScalar(v);
    var p := Split(line);
    assert "    - " + YamlScalar(v) == "    " + line;
    SplitPrefix("    ", line);
    ScalarTail(name, v, "- ");
    IndentedFits(name, "    ", p[0]);
    AllFitAppend(name, ["    " + p[0]], p[1..]);
  }

  lemma {:induction false} EntryFits(name: string, key: string, v: Value)
    requires IsWord(name)
    ensures AllFit(name, Physical(EntryLines(key, v))) <==> KeyFits(name, key) && ValueFits(name, v)
  {
    hide Fits, IsWord, Split, YamlScalar, KeyFits, ScalarFits, TailFits, DictLines, ItemLines;
    PlainTail(name, "");
    PlainTail(name, " []");
    assert "  " + key + ":" == "  " + key + ":" + "";
    KeyedLine(name, "  ", key, "");
    match v
    case One(scalar) =>
      assert "  " + key + ": " + YamlScalar(scalar) == "  " + key + ":" + (" " + YamlScalar(scalar));
      KeyedLine(name, "  ", key, " " + YamlScalar(scalar));
      ScalarTail(name, scalar, " ");
      PhysicalOne("  " + key + ": " + YamlScalar(scalar));
    case Dict(entries) =>
      var order := Sorted(entries.Keys);
      PhysicalCons("  " + key + ":", DictLines(order, entries));
      DictFits(name, order, entries);
      AllFitAppend(name, Split("  " + key + ":"), Physical(DictLines(order, entries)));
    case List(items) =>
      assert "  " + key + ": []" == "  " + key + ":" + " []";
      KeyedLine(name, "  ", key, " []");
      PhysicalOne("  " + key + ": []");
      PhysicalCons("  " + key + ":", ItemLines(items));
      ItemsFit(name, items);
      AllFitAppend(name, Split("  " + key + ":"), Physical(ItemLines(items)));
  }

  lemma {:induction false} PhysicalOne(line: string)
    ensures Physical([line]) == Split(line)
  {
    hide Split;
    assert [line][1..] == [] && Split(line) + [] == Split(line);
  }

  lemma {:induction false} PhysicalCons(line: string, rest: seq<string>)
    ensures Physical([line] + rest) == Split(line) + Physical(rest)
  {
    hide Split;
    assert ([line] + rest)[1..] == rest;
  }

  /** A text without a newline adds no piece. */
  lemma {:induction false} PlainTail(name: string, t: string)
    requires '\n' !in t
    ensures TailFits(name, t) && Split(t) == [t]
  {
    SplitSingle(t);
  }

  lemma {:induction false} BlockFits(name: string, keys: seq<string>, c: map<string, Value>)
    requires IsWord(name) && forall k :: k in keys ==> k in c
    ensures AllFit(name, Physical(BlockLines(keys, c)))
      <==> forall k :: k in keys ==> KeyFits(name, k) && ValueFits(name, c[k])
  {
    hide Fits, IsWord, Split, KeyFits, ValueFits, EntryLines;
    if keys != [] {
      var k := keys[0];
      EntryFits(name, k, c[k]);
      BlockFits(name, keys[1..], c);
      PhysicalAppend(EntryLines(k, c[k]), BlockLines(keys[1..], c));
      AllFitAppend(name, Physical(EntryLines(k, c[k])), Physical(BlockLines(keys[1..], c)));
      assert keys == [k] + keys[1..];
    }
  }

  lemma {:induction false} KnownHas(order: seq<string>, c: map<string, Value>, k: string)
    requires k in order && k in c
    ensures k in Known(order, c)
  {
    if order[0] != k { KnownHas(order[1..], c, k); }
  }

  lemma {:induction false} KeysAreAll(order: seq<string>, c: map<string, Value>)
    ensures forall k :: k in Keys(order, c) <==> k in c
  {
    hide Known;
    forall k | k in c ensures k in Keys(order, c) {
      if k in order { KnownHas(order, c, k); }
    }
  }

  // ----- when the last merge wins -----

  /** After a line that opens the block everything goes exactly when every line is indented or opens it again. */
  lemma {:induction false} AllGo(name: string, lines: seq<string>, n: nat)
    requires 0 < n <= |lines| && IsKeyLine(name, lines[0])
    ensures Staying(name, lines, n) == [] <==> forall i :: 0 < i < n ==> Indented(lines[i]) || IsKeyLine(name, lines[i])
    ensures Staying(name, lines, n) == [] ==> Goes(name, lines, n - 1)
  {
    hide IsKeyLine, Indented;
    if n > 1 { AllGo(name, lines, n - 1); }
  }

  lemma {:induction false} NameLine(name: string)
    requires IsWord(name)
    ensures var line := name + ":"; IsKeyLine(name, line) && Split(line) == [line] && !IsFence(line)
  {
    var line := name + ":";
    assert line[..|name|] == name && line[|name|..] == ":";
    assert TrimLeft(":", IsSpace) == ":";
    ShownIsNoFence(line, |name|);
    forall ch | ch in line ensures ch != '\n' { assert ch in name || ch == ':'; }
    SplitSingle(line);
  }

  /** The printed block is contained exactly when the classification fits. */
  lemma {:induction false} ContainedIffFits(name: string, order: seq<string>, c: map<string, Value>)
    requires IsWord(name)
    ensures Contained(name, EmitLines(name, order, c)) <==> ClassificationFits(name, c)
  {
    hide IsWord, KeyFits, ValueFits, IsKeyLine, Indented, IsFence, BlockLines, Keys, Split;
    var keys := Keys(order, c);
    var p := Physical(BlockLines(keys, c));
    NameLine(name);
    PhysicalCons(name + ":", BlockLines(keys, c));
    BlockFits(name, keys, c);
    KeysAreAll(order, c);
    AllGo(name, [name + ":"] + p, 1 + |p|);
    ContainedLines(name, name + ":", p);
  }

  lemma {:induction false} ContainedLines(name: string, first: string, p: seq<string>)
    requires IsKeyLine(name, first) && !IsFence(first)
    ensures FenceFree([first] + p) && StripKey(name, [first] + p) == [] <==> AllFit(name, p)
  {
    hide IsKeyLine, Indented, IsFence;
    var lines := [first] + p;
    AllGo(name, lines, |lines|);
    assert forall i :: 0 < i < |lines| ==> lines[i] == p[i - 1];
    if FenceFree(lines) && StripKey(name, lines) == [] {
      forall l | l in p ensures Fits(name, l) {
        var i :| 0 <= i < |p| && p[i] == l;
        assert lines[i + 1] == l;
      }
    }
    if AllFit(name, p) {
      forall i | 0 < i < |lines| ensures Indented(lines[i]) || IsKeyLine(name, lines[i]) { assert p[i - 1] in p; }
    }
  }

  /** Merging is last-write-wins exactly when the first classification fits: in its keys and strings every piece after
      a newline is indented or opens the block again, and none is a fence. */
  lemma {:induction false} MergeIsLastWriteWins(name: string, order: seq<string>, text: string,
                                                c1: map<string, Value>, c2: map<string, Value>)
    requires IsWord(name)
    ensures Merged(name, Merged(name, text, EmitLines(name, order, c1)), EmitLines(name, order, c2))
              == Merged(name, text, EmitLines(name, order, c2))
      <==> ClassificationFits(name, c1)
    ensures ClassificationFits(name, c1) ==>
      Rest(name, Merged(name, text, EmitLines(name, order, c1))) == Rest(name, text)
  {
    hide Merged, Contained, Rest, ClassificationFits, IsWord;
    ContainedIffFits(name, order, c1);
    LastMergeWins(name, text, EmitLines(name, order, c1), EmitLines(name, order, c2));
    if ClassificationFits(name, c1) { MergeKeepsTheRest(name, text, EmitLines(name, order, c1)); }
  }

  lemma {:induction false} NameIsWord()
    ensures IsWord(NAME)
  {
  }

  // ----- classifications without newlines -----

  ghost predicate PlainScalar(v: Scalar) {
    v.Str? ==> '\n' !in v.s
  }

  ghost predicate PlainValue(v: Value) {
    match v
    case One(scalar) => PlainScalar(scalar)
    case Dict(entries) => forall k :: k in entries ==> '\n' !in k && PlainScalar(entries[k])
    case List(items) => forall x :: x in items ==> PlainScalar(x)
  }

  /** No key and no string holds a newline. */
  ghost predicate PlainBlock(c: map<string, Value>) {
    forall k :: k in c ==> '\n' !in k && PlainValue(c[k])
  }

  lemma {:induction false} PlainKeyFits(name: string, key: string)
    requires '\n' !in key
    ensures KeyFits(name, key)
  {
    PlainTail(name, key + ":");
    ShownIsNoFence(key + ":", |key|);
  }

  lemma {:induction false} PlainScalarFits(name: string, v: Scalar)
    requires PlainScalar(v)
    ensures ScalarFits(name, v)
  {
    if v.Str? { PlainTail(name, v.s + "\""); }
  }

  lemma {:induction false} PlainFits(name: string, c: map<string, Value>)
    requires PlainBlock(c)
    ensures ClassificationFits(name, c)
  {
    hide KeyFits, ScalarFits, PlainScalar;
    forall k | k in c ensures KeyFits(name, k) && ValueFits(name, c[k]) {
      PlainKeyFits(name, k);
      forall x: Scalar | PlainScalar(x) ensures ScalarFits(name, x) { PlainScalarFits(name, x); }
      if c[k].Dict? {
        forall j | j in c[k].entries ensures KeyFits(name, j) { PlainKeyFits(name, j); }
      }
    }
  }

  /** A block whose keys and strings hold no newline is contained. */
  lemma {:induction false} PlainIsContained(name: string, order: seq<string>, c: map<string, Value>)
    requires IsWord(name) && PlainBlock(c)
    ensures Contained(name, EmitLines(name, order, c))
  {
    hide PlainBlock, ClassificationFits, Contained, EmitLines, IsWord;
    PlainFits(name, c);
    ContainedIffFits(name, order, c);
  }

  /** With newline-free keys and strings merging is last-write-wins, hence idempotent; the other header lines survive
      in order and the body byte for byte. */
  lemma {:induction false} PlainMergeIsLastWriteWins(name: string, order: seq<string>, text: string,
                                                     c1: map<string, Value>, c2: map<string, Value>)
    requires IsWord(name) && PlainBlock(c1)
    ensures Merged(name, Merged(name, text, EmitLines(name, order, c1)), EmitLines(name, order, c2))
      == Merged(name, text, EmitLines(name, order, c2))
    ensures Rest(name, Merged(name, text, EmitLines(name, order, c1))) == Rest(name, text)
  {
    hide Merged, Rest, EmitLines, PlainBlock, ClassificationFits, IsWord;
    PlainFits(name, c1);
    MergeIsLastWriteWins(name, order, text, c1, c2);
  }

  /** A newline in a string breaks the merge when what follows it starts a line of its own: with this value the two
      merges differ, whatever the document and the second classification.  An indented continuation does no harm. */
  lemma {:induction false} NewlineInStringBreaks(text: string, c2: map<string, Value>)
    ensures var c := map["reasoning" := One(Str("a\nb"))];
      Merged(NAME, Merged(NAME, text, EmitLines(NAME, KEY_ORDER, c)), EmitLines(NAME, KEY_ORDER, c2))
      != Merged(NAME, text, EmitLines(NAME, KEY_ORDER, c2))
    ensures var c := map["reasoning" := One(Str("a\n b"))];
      Merged(NAME, Merged(NAME, text, EmitLines(NAME, KEY_ORDER, c)), EmitLines(NAME, KEY_ORDER, c2))
      == Merged(NAME, text, EmitLines(NAME, KEY_ORDER, c2))
  {
    hide Merged, EmitLines, TailFits, Fits, ClassificationFits, IsWord;
    BrokenPiece();
    SecondPiece(NAME, "a", "b");
    SecondPiece(NAME, "a", " b");
    assert "b" + "\"" == "b\"" && " b" + "\"" == " b\"";
    assert "a" + "\n" + "b" == "a\nb" && "a" + "\n" + " b" == "a\n b";
    OneStringMerge("a\nb", text, c2);
    OneStringMerge("a\n b", text, c2);
  }

  lemma {:induction false} OneStringMerge(t: string, text: string, c2: map<string, Value>)
    ensures var c := map["reasoning" := One(Str(t))];
      Merged(NAME, Merged(NAME, text, EmitLines(NAME, KEY_ORDER, c)), EmitLines(NAME, KEY_ORDER, c2))
        == Merged(NAME, text, EmitLines(NAME, KEY_ORDER, c2))
      <==> TailFits(NAME, t + "\"")
  {
    hide Merged, EmitLines, TailFits, ClassificationFits, IsWord;
    NameIsWord();
    OneStringFits(t);
    MergeIsLastWriteWins(NAME, KEY_ORDER, text, map["reasoning" := One(Str(t))], c2);
  }

  lemma {:induction false} OneStringFits(t: string)
    ensures ClassificationFits(NAME, map["reasoning" := One(Str(t))]) <==> TailFits(NAME, t + "\"")
  {
    hide KeyFits, TailFits;
    var c := map["reasoning" := One(Str(t))];
    PlainKeyFits(NAME, "reasoning");
    assert "reasoning" in c && c["reasoning"] == One(Str(t));
  }

  lemma {:induction false} SecondPiece(name: string, x: string, y: string)
    requires '\n' !in x && '\n' !in y
    ensures TailFits(name, x + "\n" + y + "\"") <==> Fits(name, y + "\"")
  {
    hide Fits;
    var t := y + "\"";
    assert x + "\n" + y + "\"" == x + "\n" + t;
    SplitAppend(x, t);
    SplitSingle(x);
    SplitSingle(t);
    assert Split(x + "\n" + t)[1..] == [t];
  }

  lemma {:induction false} BrokenPiece()
    ensures !Fits(NAME, "b\"") && Fits(NAME, " b\"")
  {
    assert "b\""[0] != NAME[0];
    ShownIsNoFence(" b\"", 1);
  }
}
