/** The text a reader sees without clicking (`zero_click.py`). */
module ZeroClick {
  import opened Text

  // An incremental machine is compared with definitions on the document tree.  By the rule the extractor states for
  // itself, text shows unless it is dropped, or lies in a closed disclosure and not in the own summary of the
  // outermost one.  What a reader can see is less: text in no closed disclosure but in its own summary.

  /** What a tag means to the extractor: content that is never text, a disclosure and whether it is open, its
      summary, or any other element, block-level or not. */
  datatype Role = Drop | Details(open: bool) | Summary | Plain(block: bool)

  datatype Token = Start(role: Role) | Finish(role: Role) | Single(block: bool) | Data(text: string)

  datatype Doc =
    | Nil
    | Words(text: string, next: Doc)
    | Void(block: bool, next: Doc)
    | Element(role: Role, body: Doc, next: Doc)

  function Tokens(d: Doc): seq<Token> {
    match d
    case Nil => []
    case Words(text, next) => [Data(text)] + Tokens(next)
    case Void(block, next) => [Single(block)] + Tokens(next)
    case Element(role, body, next) => [Start(role)] + Tokens(body) + [Finish(role)] + Tokens(next)
  }

  function Break(role: Role): seq<string> {
    if role.Drop? || (role.Plain? && !role.block) then [] else ["\n"]
  }

  // ----- the machine -----

  datatype Machine = Machine(details: seq<bool>, inSummary: bool, ownerDepth: int, dropDepth: nat, chunks: seq<string>)

  const START := Machine([], false, -1, 0, [])

  /** The outermost closed disclosure from `i` on, or -1. */
  function FirstClosed(details: seq<bool>, i: nat): (k: int)
    requires i <= |details|
    ensures k == -1 ==> forall j :: i <= j < |details| ==> details[j]
    ensures k != -1 ==> i <= k < |details| && !details[k] && forall j :: i <= j < k ==> details[j]
    decreases |details| - i
  {
    if i == |details| then -1 else if details[i] then FirstClosed(details, i + 1) else i
  }

  predicate TextVisible(m: Machine) {
    && m.dropDepth == 0
    && var closed := FirstClosed(m.details, 0);
       closed == -1 || (m.inSummary && m.ownerDepth == closed)
  }

  function Add(m: Machine, more: seq<string>): Machine {
    m.(chunks := m.chunks + more)
  }

  function OnStart(m: Machine, role: Role): Machine {
    match role
    case Drop => m.(dropDepth := m.dropDepth + 1)
    case Details(open) => Add(m.(details := m.details + [open]), ["\n"])
    case Summary => Add(m.(inSummary := true, ownerDepth := |m.details| - 1), ["\n"])
    case Plain(block) => if block then Add(m, ["\n"]) else m
  }

  function OnFinish(m: Machine, role: Role): Machine {
    match role
    case Drop => if m.dropDepth > 0 then m.(dropDepth := m.dropDepth - 1) else m
    case Details(_) =>
      var details := if m.details != [] then m.details[..|m.details| - 1] else m.details;
      Add(m.(details := details, ownerDepth := if m.ownerDepth >= |details| then -1 else m.ownerDepth), ["\n"])
    case Summary => Add(m.(inSummary := false, ownerDepth := -1), ["\n"])
    case Plain(block) => if block then Add(m, ["\n"]) else m
  }

  function OnData(m: Machine, text: string): Machine {
    if !Blank(text) && TextVisible(m) then Add(m, [text]) else m
  }

  function OnToken(m: Machine, t: Token): Machine {
    match t
    case Start(role) => OnStart(m, role)
    case Finish(role) => OnFinish(m, role)
    case Single(block) => if block then Add(m, ["\n"]) else m
    case Data(text) => OnData(m, text)
  }

  function Run(m: Machine, tokens: seq<Token>): Machine
    decreases |tokens|
  {
    if tokens == [] then m else Run(OnToken(m, tokens[0]), tokens[1..])
  }

  /** On any tokens, well nested or not, the owner of the summary being read is a disclosure that is still open. */
  lemma {:induction false} OwnerStaysOpen(m: Machine, tokens: seq<Token>)
    requires -1 <= m.ownerDepth < |m.details| || m.ownerDepth == -1
    ensures var n := Run(m, tokens); -1 <= n.ownerDepth < |n.details| || n.ownerDepth == -1
    decreases |tokens|
  {
    if tokens != [] { OwnerStaysOpen(OnToken(m, tokens[0]), tokens[1..]); }
  }

  lemma {:induction false} RunCons(m: Machine, t: Token, rest: seq<Token>)
    ensures Run(m, [t] + rest) == Run(OnToken(m, t), rest)
  {
    assert ([t] + rest)[1..] == rest;
  }

  lemma {:induction false} RunAppend(m: Machine, a: seq<Token>, b: seq<Token>)
    ensures Run(m, a + b) == Run(Run(m, a), b)
    decreases |a|
  {
    hide OnToken;
    if a == [] {
      assert a + b == b;
    } else {
      assert (a + b)[1..] == a[1..] + b;
      RunAppend(OnToken(m, a[0]), a[1..], b);
    }
  }

  class ZeroClickExtractor {
    var chunks: seq<string>
    var detailsStack: seq<bool>
    var inSummary: bool
    var summaryOwnerDepth: int
    var dropDepth: nat

    ghost function Contents(): Machine
      reads this
    {
      Machine(detailsStack, inSummary, summaryOwnerDepth, dropDepth, chunks)
    }

    constructor ()
      ensures Contents() == START
    {
      chunks, detailsStack, inSummary, summaryOwnerDepth, dropDepth := [], [], false, -1, 0;
    }

    method IsTextVisible() returns (visible: bool)
      ensures visible <==> TextVisible(Contents())
    {
      if dropDepth > 0 { return false; }
      for depth := 0 to |detailsStack|
        invariant forall j :: 0 <= j < depth ==> detailsStack[j]
      {
        if detailsStack[depth] { continue; }
        return inSummary && summaryOwnerDepth == depth;
      }
      return true;
    }

    method HandleStartTag(role: Role)
      modifies this
      ensures Contents() == OnStart(old(Contents()), role)
    {
      if role.Drop? {
        dropDepth := dropDepth + 1;
        return;
      }
      if role.Details? {
        detailsStack := detailsStack + [role.open];
      } else if role.Summary? {
        inSummary := true;
        summaryOwnerDepth := |detailsStack| - 1;
      }
      if !role.Plain? || role.block {
        chunks := chunks + ["\n"];
      }
    }

    method HandleEndTag(role: Role)
      modifies this
      ensures Contents() == OnFinish(old(Contents()), role)
    {
      if role.Drop? {
        if dropDepth > 0 {
          dropDepth := dropDepth - 1;
        }
        return;
      }
      if role.Details? {
        if |detailsStack| > 0 {
          detailsStack := detailsStack[..|detailsStack| - 1];
        }
        if summaryOwnerDepth >= |detailsStack| {
          summaryOwnerDepth := -1;
        }
      } else if role.Summary? {
        inSummary := false;
        summaryOwnerDepth := -1;
      }
      if !role.Plain? || role.block {
        chunks := chunks + ["\n"];
      }
    }

    method HandleData(data: string)
      modifies this
      ensures Contents() == OnData(old(Contents()), data)
    {
      BlankIffStripsToNothing(data);
      if Strip(data) == "" { return; }
      var visible := IsTextVisible();
      if visible {
        chunks := chunks + [data];
      }
    }
  }

  method Extract(tokens: seq<Token>) returns (chunks: seq<string>)
    ensures chunks == Run(START, tokens).chunks
  {
    var x := new ZeroClickExtractor();
    for i := 0 to |tokens|
      invariant Run(START, tokens) == Run(x.Contents(), tokens[i..])
    {
      assert tokens[i..][1..] == tokens[i + 1..];
      match tokens[i] {
        case Start(role) => x.HandleStartTag(role);
        case Finish(role) => x.HandleEndTag(role);
        case Single(block) =>
          if block {
            x.chunks := x.chunks + ["\n"];
          }
        case Data(text) => x.HandleData(text);
      }
    }
    chunks := x.chunks;
  }

  // ----- the definition on the tree -----

  predicate Closed(role: Role) {
    role.Details? && !role.open
  }

  /** `k` is the outermost closed disclosure among the ancestors, given outermost first. */
  ghost predicate OutermostClosed(anc: seq<Role>, k: nat) {
    k < |anc| && Closed(anc[k]) && forall i :: 0 <= i < k ==> !Closed(anc[i])
  }

  /** The ancestor at `m` is a summary, and its nearest enclosing disclosure is the one at `k`. */
  ghost predicate OwnSummary(anc: seq<Role>, k: nat, m: nat) {
    k < m < |anc| && anc[m].Summary? && forall i :: k < i < m ==> !anc[i].Details?
  }

  /** Text under these ancestors shows, by the rule that only looks at the outermost closed disclosure. */
  ghost predicate Shows(anc: seq<Role>) {
    && (forall i :: 0 <= i < |anc| ==> !anc[i].Drop?)
    && ((forall i :: 0 <= i < |anc| ==> !Closed(anc[i]))
        || exists k: nat, m: nat :: OutermostClosed(anc, k) && OwnSummary(anc, k, m))
  }

  /** The chunks of a document under these ancestors: line breaks around block elements, and the text that shows by
      the rule. */
  ghost function Visible(d: Doc, anc: seq<Role>): seq<string> {
    match d
    case Nil => []
    case Words(text, next) => (if !Blank(text) && Shows(anc) then [text] else []) + Visible(next, anc)
    case Void(block, next) => (if block then ["\n"] else []) + Visible(next, anc)
    case Element(role, body, next) => Break(role) + Visible(body, anc + [role]) + Break(role) + Visible(next, anc)
  }

  // ----- what the machine loses -----

  /** A summary stands somewhere in the document. */
  ghost predicate HasSummary(d: Doc) {
    match d
    case Nil => false
    case Words(_, next) => HasSummary(next)
    case Void(_, next) => HasSummary(next)
    case Element(role, body, next) => role.Summary? || HasSummary(body) || HasSummary(next)
  }

  ghost predicate InnermostSummary(anc: seq<Role>, m: nat) {
    m < |anc| && anc[m].Summary? && forall i :: m < i < |anc| ==> !anc[i].Summary?
  }

  /** Under a closed disclosure the machine has lost track of the summary it is in: another summary has ended in the
      innermost one (`spent`), or the innermost one does not belong to the outermost closed disclosure. */
  ghost predicate LostTrack(anc: seq<Role>, spent: bool) {
    exists k: nat ::
      && OutermostClosed(anc, k)
      && (spent || !exists m: nat :: InnermostSummary(anc, m) && OwnSummary(anc, k, m))
  }

  /** The chunks the machine collects, by the tree. */
  ghost function Collected(d: Doc, anc: seq<Role>, spent: bool): seq<string> {
    match d
    case Nil => []
    case Words(text, next) =>
      (if !Blank(text) && Shows(anc) && !LostTrack(anc, spent) then [text] else []) + Collected(next, anc, spent)
    case Void(block, next) => (if block then ["\n"] else []) + Collected(next, anc, spent)
    case Element(role, body, next) =>
      Break(role) + Collected(body, anc + [role], spent && !role.Summary?) + Break(role)
      + Collected(next, anc, spent || role.Summary? || HasSummary(body))
  }

  /** No text that shows stands where the machine has lost track. */
  ghost predicate NothingLost(d: Doc, anc: seq<Role>, spent: bool) {
    match d
    case Nil => true
    case Words(text, next) => (!Blank(text) && Shows(anc) ==> !LostTrack(anc, spent)) && NothingLost(next, anc, spent)
    case Void(_, next) => NothingLost(next, anc, spent)
    case Element(role, body, next) =>
      && NothingLost(body, anc + [role], spent && !role.Summary?)
      && NothingLost(next, anc, spent || role.Summary? || HasSummary(body))
  }

  /** No summary inside a summary. */
  ghost predicate Legal(d: Doc, inSummary: bool) {
    match d
    case Nil => true
    case Words(_, next) => Legal(next, inSummary)
    case Void(_, next) => Legal(next, inSummary)
    case Element(role, body, next) =>
      && (inSummary ==> !role.Summary?)
      && Legal(body, inSummary || role.Summary?) && Legal(next, inSummary)
  }

  ghost predicate LegalPath(anc: seq<Role>) {
    forall i, j :: 0 <= i < j < |anc| && anc[i].Summary? ==> !anc[j].Summary?
  }

  // ----- the state of the machine under given ancestors -----

  function Frames(anc: seq<Role>): seq<bool> {
    if anc == [] then []
    else
      var a := anc[|anc| - 1];
      Frames(anc[..|anc| - 1]) + if a.Details? then [a.open] else []
  }

  function Drops(anc: seq<Role>): nat {
    if anc == [] then 0 else Drops(anc[..|anc| - 1]) + if anc[|anc| - 1].Drop? then 1 else 0
  }

  /** The depth of the disclosure that owns the enclosing summary; -1 outside summaries. */
  function Owner(anc: seq<Role>): int {
    if anc == [] then -1
    else if anc[|anc| - 1].Summary? then |Frames(anc[..|anc| - 1])| - 1
    else Owner(anc[..|anc| - 1])
  }

  ghost predicate InSummary(anc: seq<Role>) {
    exists i :: 0 <= i < |anc| && anc[i].Summary?
  }

  ghost function At(anc: seq<Role>, spent: bool, chunks: seq<string>): Machine {
    Machine(Frames(anc), InSummary(anc) && !spent, if spent then -1 else Owner(anc), Drops(anc), chunks)
  }

  lemma {:induction false} OwnerBelowFrames(anc: seq<Role>)
    ensures Owner(anc) < |Frames(anc)|
  {
    if anc != [] { OwnerBelowFrames(anc[..|anc| - 1]); }
  }

  lemma {:induction false} FramesAppend(a: seq<Role>, b: seq<Role>)
    ensures Frames(a + b) == Frames(a) + Frames(b)
  {
    if b == [] {
      assert a + b == a;
    } else {
      assert (a + b)[..|a + b| - 1] == a + b[..|b| - 1];
      FramesAppend(a, b[..|b| - 1]);
      var last := b[|b| - 1];
      Assoc(Frames(a), Frames(b[..|b| - 1]), if last.Details? then [last.open] else []);
    }
  }

  lemma {:induction false} FramesEmptyIff(anc: seq<Role>)
    ensures Frames(anc) == [] <==> forall i :: 0 <= i < |anc| ==> !anc[i].Details?
  {
    if anc != [] {
      var n := |anc| - 1;
      FramesEmptyIff(anc[..n]);
      assert Frames(anc) == [] <==> Frames(anc[..n]) == [] && !anc[n].Details?;
    }
  }

  lemma {:induction false} FramesOpenIff(anc: seq<Role>)
    ensures (forall j :: 0 <= j < |Frames(anc)| ==> Frames(anc)[j]) <==> forall i :: 0 <= i < |anc| ==> !Closed(anc[i])
  {
    if anc != [] {
      var n := |anc| - 1;
      FramesOpenIff(anc[..n]);
      var f, g := Frames(anc[..n]), Frames(anc);
      assert forall j :: 0 <= j < |f| ==> g[j] == f[j];
      assert anc[n].Details? ==> g[|f|] == anc[n].open;
    }
  }

  lemma {:induction false} DropsIff(anc: seq<Role>)
    ensures Drops(anc) == 0 <==> forall i :: 0 <= i < |anc| ==> !anc[i].Drop?
  {
    if anc != [] { DropsIff(anc[..|anc| - 1]); }
  }

  /** The frame of an ancestor stands as deep as there are disclosures above it. */
  lemma {:induction false} FrameOf(anc: seq<Role>, k: nat)
    requires OutermostClosed(anc, k)
    ensures FirstClosed(Frames(anc), 0) == |Frames(anc[..k])|
  {
    var before, after := anc[..k], anc[k + 1..];
    assert anc == before + [anc[k]] + after;
    FramesAppend(before + [anc[k]], after);
    FramesAppend(before, [anc[k]]);
    assert [anc[k]][..0] == [];
    assert Frames([anc[k]]) == [false];
    FramesOpenIff(before);
    var f := Frames(anc);
    assert f == Frames(before) + [false] + Frames(after);
    FirstClosedIs(f, |Frames(before)|);
  }

  lemma {:induction false} FirstClosedIs(details: seq<bool>, k: nat)
    requires k < |details| && !details[k] && forall j :: 0 <= j < k ==> details[j]
    ensures FirstClosed(details, 0) == k
  {
    var r := FirstClosed(details, 0);
    assert r != -1;
    assert !(r < k);
    assert !(k < r);
  }

  lemma {:induction false} OwnerIs(anc: seq<Role>, m: nat)
    requires InnermostSummary(anc, m)
    ensures Owner(anc) == |Frames(anc[..m])| - 1
  {
    hide Frames;
    var n := |anc| - 1;
    if m < n {
      assert !anc[n].Summary?;
      OwnerIs(anc[..n], m);
      assert anc[..n][..m] == anc[..m];
    }
  }

  /** The machine's test is the definition, wherever it has not lost track; nothing else is ever let through. */
  lemma {:induction false} VisibleIffShows(anc: seq<Role>, spent: bool, chunks: seq<string>)
    ensures TextVisible(At(anc, spent, chunks)) <==> Shows(anc) && !LostTrack(anc, spent)
  {
    hide Frames, Drops, Owner;
    DropsIff(anc);
    FramesOpenIff(anc);
    if k :| 0 <= k < |anc| && Closed(anc[k]) {
      var o := FindOutermost(anc, k);
      FrameOf(anc, o);
      if s :| 0 <= s < |anc| && anc[s].Summary? {
        var m := FindInnermost(anc, s);
        OwnerIs(anc, m);
        SummaryOwned(anc, o, m);
        OnlyInnermost(anc, spent, o, m);
      }
    }
  }

  lemma {:induction false} FindInnermost(anc: seq<Role>, s: nat) returns (m: nat)
    requires s < |anc| && anc[s].Summary?
    ensures InnermostSummary(anc, m)
    decreases |anc| - s
  {
    if i :| s < i < |anc| && anc[i].Summary? {
      m := FindInnermost(anc, i);
    } else {
      m := s;
    }
  }

  lemma {:induction false} FindOutermost(anc: seq<Role>, k: nat) returns (o: nat)
    requires k < |anc| && Closed(anc[k])
    ensures OutermostClosed(anc, o)
  {
    if i :| 0 <= i < k && Closed(anc[i]) {
      o := FindOutermost(anc, i);
    } else {
      o := k;
    }
  }

  /** A summary is owned by the outermost closed disclosure exactly when no other disclosure lies between. */
  lemma {:induction false} SummaryOwned(anc: seq<Role>, k: nat, m: nat)
    requires OutermostClosed(anc, k) && m < |anc| && anc[m].Summary?
    ensures OwnSummary(anc, k, m) <==> |Frames(anc[..m])| - 1 == |Frames(anc[..k])|
  {
    if k < m {
      var between := anc[k + 1..m];
      assert anc[..m] == anc[..k] + [anc[k]] + between;
      FramesAppend(anc[..k] + [anc[k]], between);
      FramesAppend(anc[..k], [anc[k]]);
      assert [anc[k]][..0] == [];
      assert |Frames([anc[k]])| == 1;
      FramesEmptyIff(between);
      assert forall i :: k < i < m ==> between[i - k - 1] == anc[i];
    } else {
      assert anc[..k] == anc[..m] + anc[m..k];
      FramesAppend(anc[..m], anc[m..k]);
    }
  }

  lemma {:induction false} OnlyInnermost(anc: seq<Role>, spent: bool, k: nat, m: nat)
    requires OutermostClosed(anc, k) && InnermostSummary(anc, m)
    ensures LostTrack(anc, spent) <==> spent || !OwnSummary(anc, k, m)
  {
    forall k': nat, m': nat | OutermostClosed(anc, k') && InnermostSummary(anc, m') ensures k' == k && m' == m {
    }
  }

  // ----- the machine computes the definition -----

  lemma {:induction false} Enter(anc: seq<Role>, spent: bool, role: Role, chunks: seq<string>)
    ensures OnStart(At(anc, spent, chunks), role) == At(anc + [role], spent && !role.Summary?, chunks + Break(role))
  {
    EnterSummary(anc, role);
    assert (anc + [role])[..|anc|] == anc;
    assert chunks + [] == chunks;
    assert Frames(anc) + [] == Frames(anc);
  }

  lemma {:induction false} EnterSummary(anc: seq<Role>, role: Role)
    ensures InSummary(anc + [role]) <==> InSummary(anc) || role.Summary?
  {
    var inner := anc + [role];
    assert forall i :: 0 <= i < |anc| ==> inner[i] == anc[i];
    if role.Summary? { assert inner[|anc|].Summary?; }
  }

  lemma {:induction false} Leave(anc: seq<Role>, spent: bool, role: Role, chunks: seq<string>)
    ensures OnFinish(At(anc + [role], spent, chunks), role) == At(anc, spent || role.Summary?, chunks + Break(role))
  {
    hide InSummary;
    EnterSummary(anc, role);
    OwnerBelowFrames(anc);
    assert (anc + [role])[..|anc|] == anc;
    assert chunks + [] == chunks;
    assert role.Details? ==> (Frames(anc) + [role.open])[..|Frames(anc)|] == Frames(anc);
    assert Frames(anc) + [] == Frames(anc);
  }

  /** On any document the machine collects what the tree says, and is back under the ancestors it started from. */
  lemma {:induction false} MachineCollects(d: Doc, anc: seq<Role>, spent: bool, chunks: seq<string>)
    ensures Run(At(anc, spent, chunks), Tokens(d))
      == At(anc, spent || HasSummary(d), chunks + Collected(d, anc, spent))
    decreases d
  {
    hide OnStart, OnFinish, InSummary, Shows, TextVisible, At, Blank, LostTrack;
    match d
    case Nil => assert chunks + [] == chunks;
    case Words(text, next) =>
      var more := if !Blank(text) && Shows(anc) && !LostTrack(anc, spent) then [text] else [];
      DataStep(anc, spent, chunks, text);
      RunCons(At(anc, spent, chunks), Data(text), Tokens(next));
      MachineCollects(next, anc, spent, chunks + more);
      Assoc(chunks, more, Collected(next, anc, spent));
    case Void(block, next) =>
      var more := if block then ["\n"] else [];
      VoidStep(anc, spent, chunks, block);
      RunCons(At(anc, spent, chunks), Single(block), Tokens(next));
      MachineCollects(next, anc, spent, chunks + more);
      Assoc(chunks, more, Collected(next, anc, spent));
    case Element(role, body, next) =>
      var inner := spent && !role.Summary?;
      var later := spent || role.Summary? || HasSummary(body);
      var b, v := Break(role), Collected(body, anc + [role], inner);
      Enter(anc, spent, role, chunks);
      MachineCollects(body, anc + [role], inner, chunks + b);
      Leave(anc, inner || HasSummary(body), role, chunks + b + v);
      MachineCollects(next, anc, later, chunks + b + v + b);
      RunElement(At(anc, spent, chunks), role, Tokens(body), Tokens(next));
      ChunkText(chunks, b, v, Collected(next, anc, later));
  }

  lemma {:induction false} ChunkText(c: seq<string>, b: seq<string>, v: seq<string>, n: seq<string>)
    ensures c + b + v + b + n == c + (b + v + b + n)
  {
  }

  lemma {:induction false} RunElement(m: Machine, role: Role, body: seq<Token>, next: seq<Token>)
    ensures Run(m, [Start(role)] + body + [Finish(role)] + next)
      == Run(OnFinish(Run(OnStart(m, role), body), role), next)
  {
    Assoc([Start(role)] + body, [Finish(role)], next);
    Assoc([Start(role)], body, [Finish(role)] + next);
    RunCons(m, Start(role), body + ([Finish(role)] + next));
    RunAppend(OnStart(m, role), body, [Finish(role)] + next);
    RunCons(Run(OnStart(m, role), body), Finish(role), next);
  }

  lemma {:induction false} DataStep(anc: seq<Role>, spent: bool, chunks: seq<string>, text: string)
    ensures OnData(At(anc, spent, chunks), text)
      == At(anc, spent, chunks + if !Blank(text) && Shows(anc) && !LostTrack(anc, spent) then [text] else [])
  {
    hide Shows, TextVisible, Blank, LostTrack;
    VisibleIffShows(anc, spent, chunks);
    assert chunks + [] == chunks;
  }

  lemma {:induction false} VoidStep(anc: seq<Role>, spent: bool, chunks: seq<string>, block: bool)
    ensures OnToken(At(anc, spent, chunks), Single(block)) == At(anc, spent, chunks + if block then ["\n"] else [])
  {
    assert chunks + [] == chunks;
  }

  lemma {:induction false} RunCollects(d: Doc)
    ensures Run(START, Tokens(d)).chunks == Collected(d, [], false)
  {
    MachineCollects(d, [], false, []);
    assert [] + Collected(d, [], false) == Collected(d, [], false);
  }

  // ----- nothing hidden is shown -----

  /** `a` is `b` with some chunks left out. */
  ghost predicate Subsequence(a: seq<string>, b: seq<string>) {
    a == []
    || (b != [] && ((a[0] == b[0] && Subsequence(a[1..], b[1..])) || Subsequence(a, b[1..])))
  }

  lemma {:induction false} SubsequenceAppend(a: seq<string>, b: seq<string>, c: seq<string>, d: seq<string>)
    requires Subsequence(a, b) && Subsequence(c, d)
    ensures Subsequence(a + c, b + d)
    decreases |b|
  {
    if b == [] {
      assert a + c == c && b + d == d;
    } else {
      assert (b + d)[1..] == b[1..] + d;
      if a != [] && a[0] == b[0] && Subsequence(a[1..], b[1..]) {
        assert (a + c)[1..] == a[1..] + c;
        SubsequenceAppend(a[1..], b[1..], c, d);
      } else {
        SubsequenceAppend(a, b[1..], c, d);
      }
    }
  }

  lemma {:induction false} SubsequenceSelf(a: seq<string>)
    ensures Subsequence(a, a)
  {
    if a != [] { SubsequenceSelf(a[1..]); }
  }

  lemma {:induction false} CollectedShows(d: Doc, anc: seq<Role>, spent: bool)
    ensures Subsequence(Collected(d, anc, spent), Visible(d, anc))
    decreases d
  {
    hide Shows, Blank, LostTrack;
    match d
    case Nil =>
    case Words(text, next) =>
      CollectedShows(next, anc, spent);
      SubsequenceSelf([text]);
      SubsequenceAppend(if !Blank(text) && Shows(anc) && !LostTrack(anc, spent) then [text] else [],
                        if !Blank(text) && Shows(anc) then [text] else [],
                        Collected(next, anc, spent), Visible(next, anc));
    case Void(block, next) =>
      var more := if block then ["\n"] else [];
      CollectedShows(next, anc, spent);
      SubsequenceSelf(more);
      SubsequenceAppend(more, more, Collected(next, anc, spent), Visible(next, anc));
    case Element(role, body, next) =>
      var b, inner, later := Break(role), spent && !role.Summary?, spent || role.Summary? || HasSummary(body);
      CollectedShows(body, anc + [role], inner);
      CollectedShows(next, anc, later);
      SubsequenceSelf(b);
      var c, v := Collected(body, anc + [role], inner), Visible(body, anc + [role]);
      SubsequenceAppend(b, b, c, v);
      SubsequenceAppend(b + c, b + v, b, b);
      SubsequenceAppend(b + c + b, b + v + b, Collected(next, anc, later), Visible(next, anc));
  }

  /** On every document, whatever is nested in what, the extractor's chunks are chunks that show by the rule, in
      order. */
  lemma {:induction false} OnlyShownIsEmitted(d: Doc)
    ensures Subsequence(Run(START, Tokens(d)).chunks, Visible(d, []))
  {
    RunCollects(d);
    CollectedShows(d, [], false);
  }

  // ----- when everything that shows is collected -----

  lemma {:induction false} CollectedIsAll(d: Doc, anc: seq<Role>, spent: bool)
    ensures |Collected(d, anc, spent)| <= |Visible(d, anc)|
    ensures |Collected(d, anc, spent)| == |Visible(d, anc)| ==> NothingLost(d, anc, spent)
    ensures NothingLost(d, anc, spent) ==> Collected(d, anc, spent) == Visible(d, anc)
    decreases d
  {
    hide Shows, Blank, LostTrack;
    match d
    case Nil =>
    case Words(text, next) => CollectedIsAll(next, anc, spent);
    case Void(_, next) => CollectedIsAll(next, anc, spent);
    case Element(role, body, next) =>
      CollectedIsAll(body, anc + [role], spent && !role.Summary?);
      CollectedIsAll(next, anc, spent || role.Summary? || HasSummary(body));
  }

  /** The extractor's chunks are those of the tree definition exactly when no text that shows under a closed
      disclosure stands after a summary within its innermost summary, or in a summary of an inner disclosure. */
  lemma {:induction false} ExtractorIsCorrect(d: Doc)
    ensures Run(START, Tokens(d)).chunks == Visible(d, []) <==> NothingLost(d, [], false)
  {
    RunCollects(d);
    CollectedIsAll(d, [], false);
  }

  /** Documents without a summary inside a summary lose nothing, with disclosures wherever they like. */
  lemma {:induction false} FlatSummariesLoseNothing(d: Doc, anc: seq<Role>, spent: bool)
    requires LegalPath(anc) && Legal(d, InSummary(anc)) && (InSummary(anc) ==> !spent)
    ensures NothingLost(d, anc, spent)
    decreases d
  {
    hide LegalPath, InSummary, Shows, LostTrack, Blank;
    match d
    case Nil =>
    case Words(text, next) =>
      LegalKeepsTrack(anc, spent);
      FlatSummariesLoseNothing(next, anc, spent);
    case Void(_, next) => FlatSummariesLoseNothing(next, anc, spent);
    case Element(role, body, next) =>
      EnterSummary(anc, role);
      LegalPathGrows(anc, role);
      if InSummary(anc) { LegalHasNoSummary(body); }
      FlatSummariesLoseNothing(body, anc + [role], spent && !role.Summary?);
      FlatSummariesLoseNothing(next, anc, spent || role.Summary? || HasSummary(body));
  }

  lemma {:induction false} LegalHasNoSummary(d: Doc)
    requires Legal(d, true)
    ensures !HasSummary(d)
  {
    match d
    case Nil =>
    case Words(_, next) => LegalHasNoSummary(next);
    case Void(_, next) => LegalHasNoSummary(next);
    case Element(_, body, next) =>
      LegalHasNoSummary(body);
      LegalHasNoSummary(next);
  }

  lemma {:induction false} LegalPathGrows(anc: seq<Role>, role: Role)
    requires LegalPath(anc) && (InSummary(anc) ==> !role.Summary?)
    ensures LegalPath(anc + [role])
  {
  }

  lemma {:induction false} LegalKeepsTrack(anc: seq<Role>, spent: bool)
    requires LegalPath(anc) && (InSummary(anc) ==> !spent)
    ensures Shows(anc) ==> !LostTrack(anc, spent)
  {
    forall k: nat, m: nat | OutermostClosed(anc, k) && OwnSummary(anc, k, m) ensures !LostTrack(anc, spent) {
      assert anc[m].Summary?;
      OnlyInnermost(anc, spent, k, m);
    }
  }

  /** So the extractor follows its rule on every document without a summary inside a summary. */
  lemma {:induction false} FlatSummariesFollowTheRule(d: Doc)
    requires Legal(d, false)
    ensures Run(START, Tokens(d)).chunks == Visible(d, [])
  {
    FlatSummariesLoseNothing(d, [], false);
    ExtractorIsCorrect(d);
  }

  /** Why summaries may not nest: text after an inner summary still lies in the outer one, which shows, and so does
      the summary of an open disclosure in there; but the extractor follows one summary only and hides both. */
  lemma {:induction false} NestedSummaryHides(text: string)
    requires !Blank(text) && text != "\n"
    ensures var after := Element(Summary, Nil, Words(text, Nil));
      var d := Element(Details(false), Element(Summary, after, Nil), Nil);
      text in Visible(d, []) && text !in Run(START, Tokens(d)).chunks
    ensures var inner := Element(Details(true), Element(Summary, Words(text, Nil), Nil), Nil);
      var d := Element(Details(false), Element(Summary, inner, Nil), Nil);
      text in Visible(d, []) && text !in Run(START, Tokens(d)).chunks
  {
    hide Blank, Run, Visible, Collected;
    var after := Element(Summary, Nil, Words(text, Nil));
    var inner := Element(Details(true), Element(Summary, Words(text, Nil), Nil), Nil);
    AfterInnerSummary(text, [Details(false), Summary]);
    InOpenDisclosure(text, [Details(false), Summary]);
    ShownInside(after, [Details(false), Summary], text);
    ShownInside(inner, [Details(false), Summary], text);
    RunCollects(Element(Details(false), Element(Summary, after, Nil), Nil));
    RunCollects(Element(Details(false), Element(Summary, inner, Nil), Nil));
  }

  lemma {:induction false} AfterInnerSummary(text: string, anc: seq<Role>)
    requires anc == [Details(false), Summary] && !Blank(text) && text != "\n"
    ensures var d := Element(Summary, Nil, Words(text, Nil));
      text in Visible(d, anc) && text !in Collected(d, anc, false)
  {
    hide Blank;
    assert OutermostClosed(anc, 0) && OwnSummary(anc, 0, 1);
    assert LostTrack(anc, true);
    assert text in Visible(Words(text, Nil), anc);
    assert Collected(Words(text, Nil), anc, true) == [];
  }

  lemma {:induction false} InOpenDisclosure(text: string, anc: seq<Role>)
    requires anc == [Details(false), Summary] && !Blank(text) && text != "\n"
    ensures var d := Element(Details(true), Element(Summary, Words(text, Nil), Nil), Nil);
      text in Visible(d, anc) && text !in Collected(d, anc, false)
  {
    hide Blank;
    var deep := anc + [Details(true)] + [Summary];
    assert OutermostClosed(deep, 0) && OwnSummary(deep, 0, 1);
    assert Shows(deep);
    assert InnermostSummary(deep, 3);
    assert deep[2].Details?;
    OnlyInnermost(deep, false, 0, 3);
    var w := Words(text, Nil);
    assert text in Visible(w, deep) && Collected(w, deep, false) == [];
    var own := Element(Summary, w, Nil);
    assert text in Visible(own, anc + [Details(true)]);
    assert Collected(own, anc + [Details(true)], false) == ["\n"] + [] + ["\n"] + [];
  }

  lemma {:induction false} ShownInside(d: Doc, anc: seq<Role>, text: string)
    requires anc == [Details(false), Summary] && text != "\n"
    ensures var page := Element(Details(false), Element(Summary, d, Nil), Nil);
      && (text in Visible(page, []) <==> text in Visible(d, anc))
      && (text in Collected(page, [], false) <==> text in Collected(d, anc, false))
  {
    hide Shows, LostTrack, HasSummary, Blank;
    assert [] + [Details(false)] == [Details(false)] && [Details(false)] + [Summary] == anc;
    var outer := Element(Summary, d, Nil);
    assert Visible(outer, [Details(false)]) == ["\n"] + Visible(d, anc) + ["\n"] + [];
    assert Collected(outer, [Details(false)], false) == ["\n"] + Collected(d, anc, false) + ["\n"] + [];
  }

  // ----- what a reader can see -----

  /** Which ancestors let text be seen, dropped content aside. */
  type View = seq<Role> -> bool

  ghost predicate DropFree(anc: seq<Role>) {
    forall i :: 0 <= i < |anc| ==> !anc[i].Drop?
  }

  /** Text in no closed disclosure, unless in that disclosure's own summary: the body of a closed one is never seen. */
  ghost predicate Reachable(anc: seq<Role>) {
    forall k: nat :: k < |anc| && Closed(anc[k]) ==> InOwnSummary(anc, k)
  }

  ghost predicate InOwnSummary(anc: seq<Role>, k: nat) {
    exists m: nat :: OwnSummary(anc, k, m)
  }

  /** Text in no disclosure inside a closed one: nesting cuts off, even the summary of the inner one. */
  ghost predicate NotCutOff(anc: seq<Role>) {
    && Reachable(anc)
    && forall k, c :: 0 <= k < c < |anc| && Closed(anc[k]) ==> !anc[c].Details?
  }

  /** The chunks of a document that are seen. */
  ghost function Seen(d: Doc, anc: seq<Role>, view: View): seq<string> {
    match d
    case Nil => []
    case Words(text, next) =>
      (if !Blank(text) && DropFree(anc) && view(anc) then [text] else []) + Seen(next, anc, view)
    case Void(block, next) => (if block then ["\n"] else []) + Seen(next, anc, view)
    case Element(role, body, next) =>
      Break(role) + Seen(body, anc + [role], view) + Break(role) + Seen(next, anc, view)
  }

  ghost predicate Emits(text: string, anc: seq<Role>, spent: bool) {
    !Blank(text) && Shows(anc) && !LostTrack(anc, spent)
  }

  /** Every emitted text lies under ancestors that let it be seen. */
  ghost predicate EmitsOnly(d: Doc, anc: seq<Role>, spent: bool, view: View) {
    match d
    case Nil => true
    case Words(text, next) => (Emits(text, anc, spent) ==> view(anc)) && EmitsOnly(next, anc, spent, view)
    case Void(_, next) => EmitsOnly(next, anc, spent, view)
    case Element(role, body, next) =>
      && EmitsOnly(body, anc + [role], spent && !role.Summary?, view)
      && EmitsOnly(next, anc, spent || role.Summary? || HasSummary(body), view)
  }

  /** Only disclosures and summaries, which stand on lines of their own, change what can be seen. */
  ghost predicate LineWise(view: View) {
    forall anc: seq<Role>, role: Role :: !role.Details? && !role.Summary? ==> view(anc + [role]) == view(anc)
  }

  function Breaks(c: seq<string>): nat {
    if c == [] then 0 else (if c[0] == "\n" then 1 else 0) + Breaks(c[1..])
  }

  lemma {:induction false} BreaksAppend(a: seq<string>, b: seq<string>)
    ensures Breaks(a + b) == Breaks(a) + Breaks(b)
  {
    if a == [] {
      assert a + b == b;
    } else {
      assert (a + b)[1..] == a[1..] + b;
      BreaksAppend(a[1..], b);
    }
  }

  lemma {:induction false} BreaksOfOne(t: string)
    ensures Breaks([t]) == (if t == "\n" then 1 else 0) && Breaks([]) == 0
  {
    assert [t][1..] == [];
  }

  lemma {:induction false} BlankBreak(text: string)
    ensures !Blank(text) ==> text != "\n"
  {
  }

  lemma {:induction false} SubsequenceBreaks(a: seq<string>, b: seq<string>)
    requires Subsequence(a, b)
    ensures Breaks(a) <= Breaks(b)
    decreases |b|
  {
    if a != [] {
      if a[0] == b[0] && Subsequence(a[1..], b[1..]) {
        SubsequenceBreaks(a[1..], b[1..]);
      } else {
        SubsequenceBreaks(a, b[1..]);
      }
    }
  }

  lemma {:induction false} SubsequenceSplit(a: seq<string>, c: seq<string>, b: seq<string>) returns (i: nat)
    requires Subsequence(a + c, b)
    ensures i <= |b| && Subsequence(a, b[..i]) && Subsequence(c, b[i..])
    decreases |b|
  {
    if a == [] {
      i := 0;
      assert a + c == c && b[0..] == b;
    } else if a[0] == b[0] && Subsequence((a + c)[1..], b[1..]) {
      assert (a + c)[1..] == a[1..] + c;
      i := SubsequenceSplit(a[1..], c, b[1..]);
      assert b[..i + 1][1..] == b[1..][..i] && b[i + 1..] == b[1..][i..];
      i := i + 1;
    } else {
      i := SubsequenceSplit(a, c, b[1..]);
      assert b[..i + 1][1..] == b[1..][..i] && b[i + 1..] == b[1..][i..];
      i := i + 1;
    }
  }

  /** Text that stands on a line of its own left out cannot be matched: `t` stands where the other side has nothing
      between two line breaks. */
  lemma {:induction false} GapIsNoSubsequence(e1: seq<string>, t: string, e2: seq<string>,
                                              s1: seq<string>, s2: seq<string>)
    requires Breaks(e1) == Breaks(s1) && Breaks(e2) == Breaks(s2) && t != "\n"
    requires (s1 == [] || s1[|s1| - 1] == "\n") && (s2 == [] || s2[0] == "\n")
    ensures !Subsequence(e1 + [t] + e2, s1 + s2)
  {
    hide Subsequence;
    if Subsequence(e1 + [t] + e2, s1 + s2) {
      var i := SubsequenceSplit(e1 + [t], e2, s1 + s2);
      var front, back := (s1 + s2)[..i], (s1 + s2)[i..];
      SubsequenceBreaks(e1 + [t], front);
      SubsequenceBreaks(e2, back);
      BreaksAppend(e1, [t]);
      BreaksOfOne(t);
      BreaksAppend(s1, s2);
      BreaksAppend(front, back);
      TakeDrop(s1 + s2, i);
      CutIsAtGap(s1, s2, i);
      EndsWithBreak(e1, t, s1);
    }
  }

  lemma {:induction false} CutIsAtGap(s1: seq<string>, s2: seq<string>, i: nat)
    requires i <= |s1 + s2| && Breaks((s1 + s2)[..i]) == Breaks(s1)
    requires (s1 == [] || s1[|s1| - 1] == "\n") && (s2 == [] || s2[0] == "\n")
    ensures (s1 + s2)[..i] == s1
  {
    var front := (s1 + s2)[..i];
    if i < |s1| {
      var n := |s1| - 1;
      assert s1 == front + s1[i..n] + ["\n"];
      BreaksAppend(front + s1[i..n], ["\n"]);
      BreaksAppend(front, s1[i..n]);
      BreaksOfOne("\n");
    } else if i > |s1| {
      assert front == s1 + ["\n"] + s2[1..i - |s1|];
      BreaksAppend(s1 + ["\n"], s2[1..i - |s1|]);
      BreaksAppend(s1, ["\n"]);
      BreaksOfOne("\n");
    }
  }

  lemma {:induction false} EndsWithBreak(e: seq<string>, t: string, s: seq<string>)
    requires t != "\n" && Breaks(e) == Breaks(s) && (s == [] || s[|s| - 1] == "\n")
    ensures !Subsequence(e + [t], s)
    decreases |s|
  {
    if s != [] && Subsequence(e + [t], s) {
      var n := |s| - 1;
      TakeDrop(s, n);
      assert s[n..] == ["\n"];
      LastIsSkipped(e, t, s[..n]);
      SubsequenceBreaks(e + [t], s[..n]);
      BreaksAppend(e, [t]);
      BreaksOfOne(t);
      BreaksAppend(s[..n], ["\n"]);
      BreaksOfOne("\n");
    }
  }

  lemma {:induction false} LastIsSkipped(e: seq<string>, t: string, s: seq<string>)
    requires t != "\n" && Subsequence(e + [t], s + ["\n"])
    ensures Subsequence(e + [t], s)
    decreases |s|
  {
    var a, b := e + [t], s + ["\n"];
    if s != [] {
      assert b[1..] == s[1..] + ["\n"];
      if a[0] == b[0] && Subsequence(a[1..], b[1..]) {
        if e != [] {
          assert a[1..] == e[1..] + [t];
          LastIsSkipped(e[1..], t, s[1..]);
        } else {
          assert a[1..] == [];
        }
      } else {
        LastIsSkipped(e, t, s[1..]);
      }
    }
  }

  // ----- text emitted that cannot be seen -----

  lemma {:induction false} BreaksAgree(d: Doc, anc: seq<Role>, spent: bool, view: View)
    ensures Breaks(Collected(d, anc, spent)) == Breaks(Seen(d, anc, view))
    decreases d
  {
    hide Shows, Blank, LostTrack, DropFree, Breaks;
    match d
    case Nil =>
    case Words(text, next) =>
      var e := if !Blank(text) && Shows(anc) && !LostTrack(anc, spent) then [text] else [];
      var v := if !Blank(text) && DropFree(anc) && view(anc) then [text] else [];
      BreaksAgree(next, anc, spent, view);
      BlankBreak(text);
      BreaksOfOne(text);
      BreaksAppend(e, Collected(next, anc, spent));
      BreaksAppend(v, Seen(next, anc, view));
    case Void(block, next) =>
      var e := if block then ["\n"] else [];
      BreaksAgree(next, anc, spent, view);
      BreaksAppend(e, Collected(next, anc, spent));
      BreaksAppend(e, Seen(next, anc, view));
    case Element(role, body, next) =>
      var b, inner, later := Break(role), spent && !role.Summary?, spent || role.Summary? || HasSummary(body);
      var c, v := Collected(body, anc + [role], inner), Seen(body, anc + [role], view);
      BreaksAgree(body, anc + [role], inner, view);
      BreaksAgree(next, anc, later, view);
      BreaksOfFour(b, c, b, Collected(next, anc, later));
      BreaksOfFour(b, v, b, Seen(next, anc, view));
  }

  lemma {:induction false} BreaksOfFour(a: seq<string>, b: seq<string>, c: seq<string>, d: seq<string>)
    ensures Breaks(a + b + c + d) == Breaks(a) + Breaks(b) + Breaks(c) + Breaks(d)
  {
    BreaksAppend(a + b + c, d);
    BreaksAppend(a + b, c);
    BreaksAppend(a, b);
  }

  /** Nothing, or whole lines. */
  predicate Quiet(c: seq<string>) {
    c == [] || (c[0] == "\n" && c[|c| - 1] == "\n")
  }

  /** Under ancestors that hide text only whole lines are seen. */
  lemma {:induction false} HiddenIsQuiet(d: Doc, anc: seq<Role>, view: View)
    requires LineWise(view) && !view(anc)
    ensures Quiet(Seen(d, anc, view))
    decreases d
  {
    hide Blank, DropFree, Quiet;
    QuietBreaks();
    match d
    case Nil =>
    case Words(text, next) =>
      HiddenIsQuiet(next, anc, view);
      QuietAppend([], Seen(next, anc, view));
    case Void(block, next) =>
      HiddenIsQuiet(next, anc, view);
      QuietAppend(if block then ["\n"] else [], Seen(next, anc, view));
    case Element(role, body, next) =>
      HiddenIsQuiet(next, anc, view);
      var b, v := Break(role), Seen(body, anc + [role], view);
      if b == [] {
        HiddenIsQuiet(body, anc + [role], view);
        assert [] + v + [] == v;
      } else {
        QuietLines(v);
      }
      QuietAppend(b + v + b, Seen(next, anc, view));
  }

  lemma {:induction false} QuietBreaks()
    ensures Quiet([]) && Quiet(["\n"])
  {
  }

  lemma {:induction false} QuietAppend(a: seq<string>, b: seq<string>)
    requires Quiet(a) && Quiet(b)
    ensures Quiet(a + b)
  {
    if a == [] { assert a + b == b; }
    if b == [] { assert a + b == a; }
  }

  lemma {:induction false} QuietLines(c: seq<string>)
    ensures Quiet(["\n"] + c + ["\n"])
  {
  }

  /** A text `t` that is emitted and cannot be seen, and what stands before and after it on both sides. */
  datatype Leak = Leak(e1: seq<string>, t: string, e2: seq<string>, s1: seq<string>, s2: seq<string>)

  ghost predicate IsLeak(l: Leak, emitted: seq<string>, seen: seq<string>, hidden: bool) {
    && emitted == l.e1 + [l.t] + l.e2 && seen == l.s1 + l.s2
    && Breaks(l.e1) == Breaks(l.s1) && Breaks(l.e2) == Breaks(l.s2) && l.t != "\n"
    && (if l.s1 == [] then hidden else l.s1[|l.s1| - 1] == "\n")
    && (if l.s2 == [] then hidden else l.s2[0] == "\n")
  }

  /** A leak stays one between more text on both sides. */
  lemma {:induction false} Widen(l: Leak, e: seq<string>, s: seq<string>, inner: bool, hidden: bool,
                                 pe: seq<string>, ps: seq<string>, qe: seq<string>, qs: seq<string>) returns (w: Leak)
    requires IsLeak(l, e, s, inner) && Breaks(pe) == Breaks(ps) && Breaks(qe) == Breaks(qs)
    requires inner ==> ps == [] || ps[|ps| - 1] == "\n"
    requires inner ==> qs == [] || qs[0] == "\n"
    requires inner && (ps == [] || qs == []) ==> hidden
    ensures IsLeak(w, pe + e + qe, ps + s + qs, hidden)
  {
    hide Breaks;
    w := Leak(pe + l.e1, l.t, l.e2 + qe, ps + l.s1, l.s2 + qs);
    BreaksAppend(pe, l.e1);
    BreaksAppend(ps, l.s1);
    BreaksAppend(l.e2, qe);
    BreaksAppend(l.s2, qs);
    assert pe + (l.e1 + [l.t] + l.e2) + qe == (pe + l.e1) + [l.t] + (l.e2 + qe);
    assert ps + (l.s1 + l.s2) + qs == (ps + l.s1) + (l.s2 + qs);
  }

  lemma {:induction false} FindLeak(d: Doc, anc: seq<Role>, spent: bool, view: View) returns (l: Leak)
    requires LineWise(view) && !EmitsOnly(d, anc, spent, view)
    ensures IsLeak(l, Collected(d, anc, spent), Seen(d, anc, view), !view(anc))
    decreases d
  {
    hide Shows, Blank, LostTrack, DropFree, Breaks, IsLeak;
    var hidden := !view(anc);
    match d
    case Nil =>
    case Words(text, next) =>
      BreaksAgree(next, anc, spent, view);
      BlankBreak(text);
      if Emits(text, anc, spent) && hidden {
        HiddenIsQuiet(next, anc, view);
        l := OwnLeak(text, Collected(next, anc, spent), Seen(next, anc, view));
        assert Seen(d, anc, view) == [] + Seen(next, anc, view) == Seen(next, anc, view);
      } else {
        l := FindLeak(next, anc, spent, view);
        var pe := if Emits(text, anc, spent) then [text] else [];
        var ps := if !Blank(text) && DropFree(anc) && view(anc) then [text] else [];
        BreaksOfOne(text);
        l := Widen(l, Collected(next, anc, spent), Seen(next, anc, view), hidden, hidden, pe, ps, [], []);
        NoTail(pe + Collected(next, anc, spent), ps + Seen(next, anc, view));
      }
    case Void(block, next) =>
      var p := if block then ["\n"] else [];
      l := FindLeak(next, anc, spent, view);
      l := Widen(l, Collected(next, anc, spent), Seen(next, anc, view), hidden, hidden, p, p, [], []);
      NoTail(p + Collected(next, anc, spent), p + Seen(next, anc, view));
    case Element(role, body, next) =>
      var b, inner, later := Break(role), spent && !role.Summary?, spent || role.Summary? || HasSummary(body);
      var c, v := Collected(body, anc + [role], inner), Seen(body, anc + [role], view);
      var cn, vn := Collected(next, anc, later), Seen(next, anc, view);
      BreaksAgree(body, anc + [role], inner, view);
      BreaksAgree(next, anc, later, view);
      if hidden { HiddenIsQuiet(next, anc, view); }
      if !EmitsOnly(body, anc + [role], inner, view) {
        l := FindLeak(body, anc + [role], inner, view);
        BreaksAppend(b, cn);
        BreaksAppend(b, vn);
        l := Widen(l, c, v, !view(anc + [role]), hidden, b, b, b + cn, b + vn);
        Assoc(b + c, b, cn);
        Assoc(b + v, b, vn);
      } else {
        l := FindLeak(next, anc, later, view);
        BreaksAppend(b + c, b);
        BreaksAppend(b, c);
        BreaksAppend(b + v, b);
        BreaksAppend(b, v);
        if hidden { QuietElement(role, body, anc, view); }
        l := Widen(l, cn, vn, hidden, hidden, b + c + b, b + v + b, [], []);
        NoTail(b + c + b + cn, b + v + b + vn);
      }
  }

  lemma {:induction false} NoTail(e: seq<string>, s: seq<string>)
    ensures e + [] == e && s + [] == s
  {
  }

  lemma {:induction false} QuietElement(role: Role, body: Doc, anc: seq<Role>, view: View)
    requires LineWise(view) && !view(anc)
    ensures Quiet(Break(role) + Seen(body, anc + [role], view) + Break(role))
  {
    hide Seen, Quiet;
    var v := Seen(body, anc + [role], view);
    if Break(role) == [] {
      HiddenIsQuiet(body, anc + [role], view);
      assert [] + v + [] == v;
    } else {
      QuietLines(v);
    }
  }

  lemma {:induction false} OwnLeak(text: string, e: seq<string>, s: seq<string>) returns (l: Leak)
    requires text != "\n" && Breaks(e) == Breaks(s) && Quiet(s)
    ensures IsLeak(l, [text] + e, s, true)
  {
    l := Leak([], text, e, [], s);
    assert [] + [text] + e == [text] + e && [] + s == s;
  }

  lemma {:induction false} CollectedIsSeen(d: Doc, anc: seq<Role>, spent: bool, view: View)
    requires EmitsOnly(d, anc, spent, view)
    ensures Subsequence(Collected(d, anc, spent), Seen(d, anc, view))
    decreases d
  {
    hide Blank, LostTrack;
    match d
    case Nil =>
    case Words(text, next) =>
      CollectedIsSeen(next, anc, spent, view);
      SubsequenceSelf([text]);
      SubsequenceAppend(if !Blank(text) && Shows(anc) && !LostTrack(anc, spent) then [text] else [],
                        if !Blank(text) && DropFree(anc) && view(anc) then [text] else [],
                        Collected(next, anc, spent), Seen(next, anc, view));
    case Void(block, next) =>
      var more := if block then ["\n"] else [];
      CollectedIsSeen(next, anc, spent, view);
      SubsequenceSelf(more);
      SubsequenceAppend(more, more, Collected(next, anc, spent), Seen(next, anc, view));
    case Element(role, body, next) =>
      var b, inner, later := Break(role), spent && !role.Summary?, spent || role.Summary? || HasSummary(body);
      CollectedIsSeen(body, anc + [role], inner, view);
      CollectedIsSeen(next, anc, later, view);
      SubsequenceSelf(b);
      var c, v := Collected(body, anc + [role], inner), Seen(body, anc + [role], view);
      SubsequenceAppend(b, b, c, v);
      SubsequenceAppend(b + c, b + v, b, b);
      SubsequenceAppend(b + c + b, b + v + b, Collected(next, anc, later), Seen(next, anc, view));
  }

  /** For any view: nothing but what is seen comes out exactly when every emitted text can be seen. */
  lemma {:induction false} OnlySeenIff(d: Doc, view: View)
    requires LineWise(view)
    ensures Subsequence(Run(START, Tokens(d)).chunks, Seen(d, [], view)) <==> EmitsOnly(d, [], false, view)
  {
    hide Subsequence, EmitsOnly;
    RunCollects(d);
    if EmitsOnly(d, [], false, view) {
      CollectedIsSeen(d, [], false, view);
    } else {
      var l := FindLeak(d, [], false, view);
      GapIsNoSubsequence(l.e1, l.t, l.e2, l.s1, l.s2);
    }
  }

  // ----- the promise about closed disclosures -----

  ghost function Promised(): View { (anc: seq<Role>) => Reachable(anc) }
  ghost function CutOff(): View { (anc: seq<Role>) => NotCutOff(anc) }

  /** No closed disclosure stands inside the innermost summary. */
  ghost predicate NoneClosedInSummary(anc: seq<Role>) {
    forall m: nat, c :: InnermostSummary(anc, m) && m < c < |anc| ==> !Closed(anc[c])
  }

  /** No disclosure at all does, as far as a closed one is around it. */
  ghost predicate NoneInSummary(anc: seq<Role>) {
    forall k: nat, m: nat, c ::
      OutermostClosed(anc, k) && InnermostSummary(anc, m) && m < c < |anc| ==> !anc[c].Details?
  }

  ghost function ClosedFree(): View { (anc: seq<Role>) => NoneClosedInSummary(anc) }
  ghost function DetailsFree(): View { (anc: seq<Role>) => NoneInSummary(anc) }

  lemma {:induction false} OwnSummaryStays(anc: seq<Role>, role: Role, k: nat)
    requires k < |anc| && !role.Details? && !role.Summary?
    ensures InOwnSummary(anc + [role], k) <==> InOwnSummary(anc, k)
  {
    var inner := anc + [role];
    forall m: nat ensures OwnSummary(inner, k, m) <==> OwnSummary(anc, k, m) {
      if m < |anc| { assert forall i :: 0 <= i <= m ==> inner[i] == anc[i]; }
    }
  }

  lemma {:induction false} ReachableStays(anc: seq<Role>, role: Role)
    requires !role.Details? && !role.Summary?
    ensures Reachable(anc + [role]) <==> Reachable(anc)
  {
    hide InOwnSummary;
    var inner := anc + [role];
    assert forall i :: 0 <= i < |anc| ==> inner[i] == anc[i];
    forall k: nat | k < |anc| ensures InOwnSummary(inner, k) <==> InOwnSummary(anc, k) {
      OwnSummaryStays(anc, role, k);
    }
  }

  lemma {:induction false} ViewsAreLineWise()
    ensures LineWise(Promised()) && LineWise(CutOff())
  {
    hide Reachable;
    forall anc: seq<Role>, role: Role | !role.Details? && !role.Summary?
      ensures Reachable(anc + [role]) == Reachable(anc) && NotCutOff(anc + [role]) == NotCutOff(anc)
    {
      ReachableStays(anc, role);
      assert forall i :: 0 <= i < |anc| ==> (anc + [role])[i] == anc[i];
    }
  }

  /** What the extractor lets through can be seen exactly when no closed disclosure lies inside the innermost summary,
      and is not cut off exactly when no disclosure does. */
  lemma {:induction false} SeenByPath(anc: seq<Role>, spent: bool)
    requires Shows(anc) && !LostTrack(anc, spent)
    ensures Reachable(anc) <==> NoneClosedInSummary(anc)
    ensures NotCutOff(anc) <==> NoneInSummary(anc)
  {
    OutermostExists(anc);
    if k: nat :| OutermostClosed(anc, k) {
      var m: nat :| InnermostSummary(anc, m) && OwnSummary(anc, k, m);
      SeenUnder(anc, k, m);
    }
  }

  lemma {:induction false} OutermostExists(anc: seq<Role>)
    ensures (exists c :: 0 <= c < |anc| && Closed(anc[c])) ==> exists k: nat :: OutermostClosed(anc, k)
  {
    if c :| 0 <= c < |anc| && Closed(anc[c]) { var o := FindOutermost(anc, c); }
  }

  lemma {:induction false} SeenUnder(anc: seq<Role>, k: nat, m: nat)
    requires OutermostClosed(anc, k) && InnermostSummary(anc, m) && OwnSummary(anc, k, m)
    ensures Reachable(anc) <==> forall c :: m < c < |anc| ==> !Closed(anc[c])
    ensures NoneClosedInSummary(anc) <==> forall c :: m < c < |anc| ==> !Closed(anc[c])
    ensures NotCutOff(anc) <==> forall c :: m < c < |anc| ==> !anc[c].Details?
    ensures NoneInSummary(anc) <==> forall c :: m < c < |anc| ==> !anc[c].Details?
  {
    forall m': nat | InnermostSummary(anc, m') ensures m' == m {}
    forall k': nat | OutermostClosed(anc, k') ensures k' == k {}
    forall c: nat | m < c ensures !InOwnSummary(anc, c) {}
  }

  lemma {:induction false} EmitsOnlySame(d: Doc, anc: seq<Role>, spent: bool, v: View, w: View)
    requires forall a: seq<Role>, b: bool :: Shows(a) && !LostTrack(a, b) ==> v(a) == w(a)
    ensures EmitsOnly(d, anc, spent, v) <==> EmitsOnly(d, anc, spent, w)
    decreases d
  {
    hide Shows, LostTrack, Blank;
    match d
    case Nil =>
    case Words(_, next) => EmitsOnlySame(next, anc, spent, v, w);
    case Void(_, next) => EmitsOnlySame(next, anc, spent, v, w);
    case Element(role, body, next) =>
      EmitsOnlySame(body, anc + [role], spent && !role.Summary?, v, w);
      EmitsOnlySame(next, anc, spent || role.Summary? || HasSummary(body), v, w);
  }

  /** The body of a closed disclosure never comes out, and neither does anything else hidden, exactly when no emitted
      text lies in a closed disclosure inside its innermost summary. */
  lemma {:induction false} ClosedBodiesStayHiddenIff(d: Doc)
    ensures Subsequence(Run(START, Tokens(d)).chunks, Seen(d, [], Promised()))
      <==> EmitsOnly(d, [], false, ClosedFree())
  {
    hide Shows, LostTrack, Reachable, NoneClosedInSummary, LineWise, EmitsOnly, Subsequence, Seen;
    ViewsAreLineWise();
    OnlySeenIff(d, Promised());
    forall a: seq<Role>, b: bool | Shows(a) && !LostTrack(a, b) ensures Promised()(a) == ClosedFree()(a) {
      SeenByPath(a, b);
    }
    EmitsOnlySame(d, [], false, Promised(), ClosedFree());
  }

  /** Nesting cuts off, as documented, exactly when no emitted text under a closed disclosure lies in any disclosure
      inside its innermost summary. */
  lemma {:induction false} NestingCutsOffIff(d: Doc)
    ensures Subsequence(Run(START, Tokens(d)).chunks, Seen(d, [], CutOff()))
      <==> EmitsOnly(d, [], false, DetailsFree())
  {
    hide Shows, LostTrack, NotCutOff, NoneInSummary, LineWise, EmitsOnly, Subsequence, Seen;
    ViewsAreLineWise();
    OnlySeenIff(d, CutOff());
    forall a: seq<Role>, b: bool | Shows(a) && !LostTrack(a, b) ensures CutOff()(a) == DetailsFree()(a) {
      SeenByPath(a, b);
    }
    EmitsOnlySame(d, [], false, CutOff(), DetailsFree());
  }

  /** No text that can be seen stands where the machine has lost track. */
  ghost predicate NothingMissed(d: Doc, anc: seq<Role>, spent: bool) {
    match d
    case Nil => true
    case Words(text, next) =>
      && (!Blank(text) && DropFree(anc) && Reachable(anc) ==> !LostTrack(anc, spent))
      && NothingMissed(next, anc, spent)
    case Void(_, next) => NothingMissed(next, anc, spent)
    case Element(role, body, next) =>
      && NothingMissed(body, anc + [role], spent && !role.Summary?)
      && NothingMissed(next, anc, spent || role.Summary? || HasSummary(body))
  }

  lemma {:induction false} ReachableShows(anc: seq<Role>)
    requires DropFree(anc) && Reachable(anc)
    ensures Shows(anc)
  {
    if k :| 0 <= k < |anc| && Closed(anc[k]) {
      var o := FindOutermost(anc, k);
      var m: nat :| OwnSummary(anc, o, m);
    }
  }

  lemma {:induction false} CollectedIsAllSeen(d: Doc, anc: seq<Role>, spent: bool)
    requires EmitsOnly(d, anc, spent, Promised())
    ensures var c, v := Collected(d, anc, spent), Seen(d, anc, Promised());
      && |c| <= |v| && (|c| == |v| ==> NothingMissed(d, anc, spent)) && (NothingMissed(d, anc, spent) ==> c == v)
    decreases d
  {
    hide Blank, LostTrack, Shows, Reachable, DropFree;
    match d
    case Nil =>
    case Words(text, next) =>
      CollectedIsAllSeen(next, anc, spent);
      ShowsIsDropFree(anc);
      if DropFree(anc) && Reachable(anc) { ReachableShows(anc); }
    case Void(_, next) => CollectedIsAllSeen(next, anc, spent);
    case Element(role, body, next) =>
      CollectedIsAllSeen(body, anc + [role], spent && !role.Summary?);
      CollectedIsAllSeen(next, anc, spent || role.Summary? || HasSummary(body));
  }

  lemma {:induction false} ShowsIsDropFree(anc: seq<Role>)
    ensures Shows(anc) ==> DropFree(anc)
  {
  }

  /** The extractor gives exactly what a reader sees without a click if and only if no emitted text lies in a closed
      disclosure inside its innermost summary, and no text to be seen stands where it has lost track of summaries. */
  lemma {:induction false} PromiseKeptIff(d: Doc)
    ensures Run(START, Tokens(d)).chunks == Seen(d, [], Promised())
      <==> EmitsOnly(d, [], false, ClosedFree()) && NothingMissed(d, [], false)
  {
    hide Seen, Subsequence, EmitsOnly, NothingMissed;
    RunCollects(d);
    SubsequenceSelf(Seen(d, [], Promised()));
    ClosedBodiesStayHiddenIff(d);
    ViewsAreLineWise();
    OnlySeenIff(d, Promised());
    if EmitsOnly(d, [], false, Promised()) { CollectedIsAllSeen(d, [], false); }
  }

  /** No summary and no closed disclosure inside a summary. */
  ghost predicate Plain(d: Doc, inSummary: bool) {
    match d
    case Nil => true
    case Words(_, next) => Plain(next, inSummary)
    case Void(_, next) => Plain(next, inSummary)
    case Element(role, body, next) =>
      && (inSummary ==> !role.Summary? && !Closed(role))
      && Plain(body, inSummary || role.Summary?) && Plain(next, inSummary)
  }

  lemma {:induction false} PlainIsLegal(d: Doc, inSummary: bool)
    requires Plain(d, inSummary)
    ensures Legal(d, inSummary)
  {
    match d
    case Nil =>
    case Words(_, next) => PlainIsLegal(next, inSummary);
    case Void(_, next) => PlainIsLegal(next, inSummary);
    case Element(role, body, next) =>
      PlainIsLegal(body, inSummary || role.Summary?);
      PlainIsLegal(next, inSummary);
  }

  lemma {:induction false} PlainEmitsOnly(d: Doc, anc: seq<Role>, spent: bool)
    requires Plain(d, InSummary(anc)) && NoneClosedInSummary(anc)
    ensures EmitsOnly(d, anc, spent, ClosedFree())
    decreases d
  {
    hide Shows, LostTrack, Blank, InSummary, NoneClosedInSummary;
    match d
    case Nil =>
    case Words(_, next) => PlainEmitsOnly(next, anc, spent);
    case Void(_, next) => PlainEmitsOnly(next, anc, spent);
    case Element(role, body, next) =>
      EnterSummary(anc, role);
      StillNoneClosed(anc, role);
      PlainEmitsOnly(body, anc + [role], spent && !role.Summary?);
      PlainEmitsOnly(next, anc, spent || role.Summary? || HasSummary(body));
  }

  lemma {:induction false} StillNoneClosed(anc: seq<Role>, role: Role)
    requires NoneClosedInSummary(anc) && (InSummary(anc) ==> !role.Summary? && !Closed(role))
    ensures NoneClosedInSummary(anc + [role])
  {
    var inner := anc + [role];
    forall m: nat, c | InnermostSummary(inner, m) && m < c < |inner| ensures !Closed(inner[c]) {
      assert inner[m] == anc[m];
      assert forall i :: 0 <= i < |anc| ==> inner[i] == anc[i];
      assert InnermostSummary(anc, m);
    }
  }

  lemma {:induction false} NothingLostMissesNothing(d: Doc, anc: seq<Role>, spent: bool)
    requires NothingLost(d, anc, spent)
    ensures NothingMissed(d, anc, spent)
    decreases d
  {
    hide Shows, LostTrack, Blank, DropFree, Reachable;
    match d
    case Nil =>
    case Words(_, next) =>
      if DropFree(anc) && Reachable(anc) { ReachableShows(anc); }
      NothingLostMissesNothing(next, anc, spent);
    case Void(_, next) => NothingLostMissesNothing(next, anc, spent);
    case Element(role, body, next) =>
      NothingLostMissesNothing(body, anc + [role], spent && !role.Summary?);
      NothingLostMissesNothing(next, anc, spent || role.Summary? || HasSummary(body));
  }

  /** So the promise is kept on every document without a summary or a closed disclosure inside a summary. */
  lemma {:induction false} PlainDocumentsAreCorrect(d: Doc)
    requires Plain(d, false)
    ensures Run(START, Tokens(d)).chunks == Seen(d, [], Promised())
  {
    hide Seen, EmitsOnly, NothingMissed, NothingLost;
    PlainIsLegal(d, false);
    FlatSummariesLoseNothing(d, [], false);
    NothingLostMissesNothing(d, [], false);
    PlainEmitsOnly(d, [], false);
    PromiseKeptIff(d);
  }

  /** A closed disclosure whose body comes out: it stands in the summary of another one. */
  lemma {:induction false} ClosedBodyLeaks(text: string)
    requires !Blank(text) && text != "\n"
    ensures var inner := Element(Details(false), Words(text, Nil), Nil);
      var d := Element(Details(false), Element(Summary, inner, Nil), Nil);
      && Legal(d, false) && text in Run(START, Tokens(d)).chunks && text !in Seen(d, [], Promised())
  {
    hide Blank, Run, Collected, Seen, Visible;
    var anc := [Details(false), Summary];
    var inner := Element(Details(false), Words(text, Nil), Nil);
    assert Legal(Element(Summary, inner, Nil), false) by { assert Legal(inner, true); }
    BodyInSummary(text, anc);
    ShownInside(inner, anc, text);
    SeenInside(inner, anc, text);
    RunCollects(Element(Details(false), Element(Summary, inner, Nil), Nil));
  }

  lemma {:induction false} BodyInSummary(text: string, anc: seq<Role>)
    requires anc == [Details(false), Summary] && !Blank(text) && text != "\n"
    ensures var d := Element(Details(false), Words(text, Nil), Nil);
      text in Collected(d, anc, false) && text !in Seen(d, anc, Promised())
  {
    hide Blank;
    var deep := anc + [Details(false)];
    assert OutermostClosed(deep, 0) && OwnSummary(deep, 0, 1) && InnermostSummary(deep, 1);
    assert Shows(deep);
    OnlyInnermost(deep, false, 0, 1);
    assert Closed(deep[2]) && forall m: nat :: !OwnSummary(deep, 2, m);
    assert !Reachable(deep);
    var w := Words(text, Nil);
    assert text in Collected(w, deep, false) && Seen(w, deep, Promised()) == [];
    assert Seen(Element(Details(false), w, Nil), anc, Promised()) == ["\n"] + [] + ["\n"] + [];
  }

  lemma {:induction false} SeenInside(d: Doc, anc: seq<Role>, text: string)
    requires anc == [Details(false), Summary] && text != "\n"
    ensures var page := Element(Details(false), Element(Summary, d, Nil), Nil);
      text in Seen(page, [], Promised()) <==> text in Seen(d, anc, Promised())
  {
    hide Reachable, DropFree, Blank;
    assert [] + [Details(false)] == [Details(false)] && [Details(false)] + [Summary] == anc;
    var outer := Element(Summary, d, Nil);
    assert Seen(outer, [Details(false)], Promised()) == ["\n"] + Seen(d, anc, Promised()) + ["\n"] + [];
  }

  // ----- the text handed out -----

  function Concat(chunks: seq<string>): string {
    if chunks == [] then "" else chunks[0] + Concat(chunks[1..])
  }

  function NonSpaces(s: string): (n: nat)
    ensures n <= |s| && (s != "" && !IsSpace(s[0]) ==> n > 0)
  {
    if s == "" || IsSpace(s[0]) then 0 else 1 + NonSpaces(s[1..])
  }

  /** Python's `" ".join(line.split())`, without the blank in front. */
  function Squeezed(line: string): string
    decreases |line|
  {
    TrimLeftCuts(line, IsSpace);
    var t := TrimLeft(line, IsSpace);
    if t == "" then "" else " " + t[..NonSpaces(t)] + Squeezed(t[NonSpaces(t)..])
  }

  function Squeeze(line: string): string {
    if Squeezed(line) == "" then "" else Squeezed(line)[1..]
  }

  /** The lines of the text that hold something, each squeezed. */
  function FilledLines(lines: seq<string>): seq<string> {
    if lines == [] then []
    else (if Squeeze(lines[0]) == "" then [] else [Squeeze(lines[0])]) + FilledLines(lines[1..])
  }

  function TextOf(chunks: seq<string>): string {
    var out := FilledLines(Split(Concat(chunks)));
    Join(out) + if out == [] then "" else "\n"
  }

  lemma {:induction false} FilledStep(lines: seq<string>, i: nat)
    requires i < |lines|
    ensures FilledLines(lines[i..])
      == (if Squeeze(lines[i]) == "" then [] else [Squeeze(lines[i])]) + FilledLines(lines[i + 1..])
  {
    assert lines[i..][1..] == lines[i + 1..];
  }

  lemma {:induction false} NoneFilled(lines: seq<string>)
    ensures FilledLines(lines[|lines|..]) == [] && lines[0..] == lines
  {
  }

  /** Collapses the collected chunks into clean lines. */
  method GetText(chunks: seq<string>) returns (text: string)
    ensures text == TextOf(chunks)
  {
    hide Split, Concat, Squeeze, Join, FilledLines;
    var lines, out := Split(Concat(chunks)), [];
    for i := 0 to |lines|
      invariant out + FilledLines(lines[i..]) == FilledLines(lines)
    {
      FilledStep(lines, i);
      var line := Squeeze(lines[i]);
      if line != "" {
        Assoc(out, [line], FilledLines(lines[i + 1..]));
        out := out + [line];
      }
    }
    NoneFilled(lines);
    assert out + [] == out;
    text := Join(out) + if out == [] then "" else "\n";
  }

  /** What stands before a character: nothing, white space within the line, or the start of a line. */
  datatype Gap = Tight | Spaced | NewLine

  datatype Mark = Mark(c: char, gap: Gap)

  ghost function Wider(g: Gap, c: char): Gap {
    if c == '\n' || g == NewLine then NewLine else Spaced
  }

  /** The characters that are not white space, each with what stands before it; before the text stands `g`. */
  ghost function Marks(s: string, g: Gap): seq<Mark> {
    if s == "" then []
    else if IsSpace(s[0]) then Marks(s[1..], Wider(g, s[0]))
    else [Mark(s[0], g)] + Marks(s[1..], Tight)
  }

  /** What stands before the next character. */
  ghost function After(s: string, g: Gap): Gap {
    if s == "" then g else After(s[1..], if IsSpace(s[0]) then Wider(g, s[0]) else Tight)
  }

  lemma {:induction false} MarksAppend(a: string, b: string, g: Gap)
    ensures Marks(a + b, g) == Marks(a, g) + Marks(b, After(a, g))
    ensures After(a + b, g) == After(b, After(a, g))
  {
    hide IsSpace;
    if a == "" {
      assert a + b == b;
    } else {
      assert (a + b)[1..] == a[1..] + b;
      MarksAppend(a[1..], b, if IsSpace(a[0]) then Wider(g, a[0]) else Tight);
    }
  }

  lemma {:induction false} MarksOfTrimmed(s: string, g: Gap)
    requires '\n' !in s && g != Tight
    ensures Marks(TrimLeft(s, IsSpace), g) == Marks(s, g)
  {
    if s != "" && IsSpace(s[0]) { MarksOfTrimmed(s[1..], g); }
  }

  /** A word leaves nothing between its characters. */
  lemma {:induction false} AfterWord(t: string, g: Gap)
    requires t != "" && !IsSpace(t[0])
    ensures After(t[..NonSpaces(t)], g) == Tight
  {
    hide IsSpace;
    var n := NonSpaces(t);
    NonSpacesEnd(t);
    assert t[..n][0] == t[0] && t[..n][1..] == t[1..][..n - 1];
    if n > 1 { AfterWord(t[1..], Tight); } else { assert t[1..][..0] == ""; }
  }

  /** Words in a row keep their characters and stay apart. */
  lemma {:induction false} SqueezedKeepsMarks(line: string, g: Gap)
    requires '\n' !in line && g != Tight
    ensures Marks(Squeezed(line), g) == Marks(line, g)
    decreases |line|
  {
    hide IsSpace, Marks, After;
    TrimLeftCuts(line, IsSpace);
    MarksOfTrimmed(line, g);
    var t := TrimLeft(line, IsSpace);
    BlankMark(g);
    if t != "" {
      var w, rest := t[..NonSpaces(t)], t[NonSpaces(t)..];
      AfterWord(t, g);
      TakeDrop(t, NonSpaces(t));
      MarksAppend(w, rest, g);
      MarksAppend(" ", w, g);
      MarksAppend(" " + w, Squeezed(rest), g);
      RestAfterWord(t, g);
      assert '\n' !in rest;
      SqueezedKeepsMarks(rest, Spaced);
    }
  }

  lemma {:induction false} BlankMark(g: Gap)
    ensures g != Tight ==> After(" ", g) == g
    ensures Marks(" ", g) == [] && Marks("", g) == []
    ensures Marks("\n", g) == [] && After("\n", g) == NewLine
  {
    assert " "[1..] == "" && "\n"[1..] == "";
  }

  /** What follows a word starts with white space, so that it does not matter whether some is put before it. */
  lemma {:induction false} RestAfterWord(t: string, g: Gap)
    requires '\n' !in t
    ensures var rest := t[NonSpaces(t)..];
      Marks(rest, Tight) == Marks(rest, Spaced) && Marks(Squeezed(rest), Tight) == Marks(Squeezed(rest), Spaced)
  {
    var rest := t[NonSpaces(t)..];
    NonSpacesEnd(t);
    if rest != "" { assert rest[0] in t && Wider(Tight, rest[0]) == Wider(Spaced, rest[0]); }
    if Squeezed(rest) != "" { assert Squeezed(rest)[0] == ' '; }
  }

  lemma {:induction false} NonSpacesEnd(t: string)
    ensures NonSpaces(t) < |t| ==> IsSpace(t[NonSpaces(t)])
    ensures forall k :: 0 <= k < NonSpaces(t) ==> !IsSpace(t[k])
  {
    if t != "" && !IsSpace(t[0]) { NonSpacesEnd(t[1..]); }
  }

  lemma {:induction false} SqueezeKeepsMarks(line: string)
    requires '\n' !in line
    ensures Marks(Squeeze(line), NewLine) == Marks(line, NewLine)
  {
    hide Marks;
    SqueezedKeepsMarks(line, NewLine);
    var s := Squeezed(line);
    BlankMark(NewLine);
    if s != "" {
      assert s == " " + s[1..];
      MarksAppend(" ", s[1..], NewLine);
    }
  }

  /** The marks of lines are those of each line. */
  lemma {:induction false} MarksOfLines(a: string, rest: seq<string>)
    ensures Marks(Join([a] + rest), NewLine)
      == Marks(a, NewLine) + if rest == [] then [] else Marks(Join(rest), NewLine)
  {
    hide Marks, After;
    BlankMark(After(a, NewLine));
    if rest == [] {
      assert [a] + rest == [a];
    } else {
      JoinCons(a, rest);
      MarksAppend(a + "\n", Join(rest), NewLine);
      MarksAppend(a, "\n", NewLine);
    }
  }

  lemma {:induction false} FilledKeepMarks(lines: seq<string>)
    requires forall l :: l in lines ==> '\n' !in l
    ensures Marks(Join(FilledLines(lines)), NewLine) == Marks(Join(lines), NewLine)
  {
    hide Marks, Squeeze;
    BlankMark(NewLine);
    if lines != [] {
      FilledKeepMarks(lines[1..]);
      SqueezeKeepsMarks(lines[0]);
      assert lines == [lines[0]] + lines[1..];
      MarksOfLines(lines[0], lines[1..]);
      var s, rest := Squeeze(lines[0]), FilledLines(lines[1..]);
      if s != "" {
        MarksOfLines(s, rest);
      } else {
        assert [] + rest == rest;
      }
    }
  }

  // ----- what the text looks like -----

  /** A line that starts and ends with a character and has single blanks between its words. */
  ghost predicate TidyLine(s: string) {
    && s != "" && !IsSpace(s[0]) && !IsSpace(s[|s| - 1])
    && forall i :: 0 <= i < |s| && IsSpace(s[i]) ==> s[i] == ' ' && !IsSpace(s[i + 1])
  }

  /** Tidy lines, each ended by a line break; no other white space, and no empty line. */
  ghost predicate Tidy(s: string) {
    && (s != "" ==> !IsSpace(s[0]) && s[|s| - 1] == '\n')
    && forall i :: 0 <= i < |s| && IsSpace(s[i]) ==>
         (s[i] == ' ' || s[i] == '\n') && (i + 1 < |s| ==> !IsSpace(s[i + 1]))
  }

  lemma {:induction false} SqueezedIsTidy(line: string)
    ensures Squeezed(line) != "" ==> Squeezed(line)[0] == ' ' && TidyLine(Squeezed(line)[1..])
    decreases |line|
  {
    hide IsSpace, TidyLine;
    TrimLeftCuts(line, IsSpace);
    var t := TrimLeft(line, IsSpace);
    if t != "" {
      var n := NonSpaces(t);
      NonSpacesEnd(t);
      SqueezedIsTidy(t[n..]);
      WordThenTidy(t[..n], Squeezed(t[n..]));
    }
  }

  /** A word in front of nothing, or of a blank and a tidy line. */
  lemma {:induction false} WordThenTidy(w: string, s: string)
    requires w != "" && forall k :: 0 <= k < |w| ==> !IsSpace(w[k])
    requires s != "" ==> s[0] == ' ' && TidyLine(s[1..])
    ensures TidyLine(w + s) && (" " + w + s)[0] == ' ' && (" " + w + s)[1..] == w + s
  {
    hide IsSpace;
    var t := w + s;
    assert forall k :: 0 <= k < |w| ==> t[k] == w[k];
    assert forall k :: |w| < k < |t| ==> t[k] == s[1..][k - |w| - 1];
    if s != "" { assert t[|w|] == ' '; }
  }

  lemma {:induction false} FilledAreTidy(lines: seq<string>)
    ensures forall l :: l in FilledLines(lines) ==> TidyLine(l)
  {
    hide TidyLine;
    if lines != [] {
      FilledAreTidy(lines[1..]);
      SqueezedIsTidy(lines[0]);
      assert Squeeze(lines[0]) != "" ==> TidyLine(Squeeze(lines[0]));
    }
  }

  lemma {:induction false} JoinedIsTidy(out: seq<string>)
    requires forall l :: l in out ==> TidyLine(l)
    ensures Tidy(Join(out) + if out == [] then "" else "\n")
  {
    if out != [] {
      assert out[0] in out;
      if |out| == 1 {
        LineThenTidy(out[0], "");
      } else {
        JoinedIsTidy(out[1..]);
        assert out[1] == out[1..][0] && out[1] in out;
        LineThenTidy(out[0], Join(out[1..]) + "\n");
        assert Join(out) + "\n" == out[0] + "\n" + (Join(out[1..]) + "\n");
      }
    }
  }

  lemma {:induction false} NewlineIsSpace()
    ensures IsSpace('\n')
  {
  }

  lemma {:induction false} LineThenTidy(l: string, s: string)
    requires TidyLine(l) && Tidy(s)
    ensures Tidy(l + "\n" + s)
  {
    hide IsSpace;
    var t := l + "\n" + s;
    NewlineIsSpace();
    assert forall k :: 0 <= k < |l| ==> t[k] == l[k];
    assert t[|l|] == '\n';
    assert forall k :: |l| < k < |t| ==> t[k] == s[k - |l| - 1];
  }

  /** `text` is `raw` put in order: the same words, the same of them in a line, and nothing else. */
  ghost predicate PutInOrder(text: string, raw: string) {
    Tidy(text) && Marks(text, NewLine) == Marks(raw, NewLine)
  }

  lemma {:induction false} TextIsInOrder(chunks: seq<string>)
    ensures PutInOrder(TextOf(chunks), Concat(chunks))
  {
    hide Marks, Split, Concat, FilledLines, Tidy;
    var raw := Concat(chunks);
    var out := FilledLines(Split(raw));
    SplitLineFree(raw);
    FilledKeepMarks(Split(raw));
    JoinSplit(raw);
    FilledAreTidy(Split(raw));
    JoinedIsTidy(out);
    BlankMark(After(Join(out), NewLine));
    MarksAppend(Join(out), if out == [] then "" else "\n", NewLine);
    assert Marks(raw, NewLine) + [] == Marks(raw, NewLine);
  }

  /** The chunks are put one after the other. */
  lemma {:induction false} ConcatInOrder(a: seq<string>, chunk: string, b: seq<string>)
    ensures Concat(a + [chunk] + b) == Concat(a) + chunk + Concat(b)
  {
    var all := a + [chunk] + b;
    if a == [] {
      assert all[0] == chunk && all[1..] == b;
    } else {
      assert all[0] == a[0] && all[1..] == a[1..] + [chunk] + b;
      ConcatInOrder(a[1..], chunk, b);
    }
  }

  /** The text handed out is that of the extractor's chunks put in order, and on a document without a summary or a
      closed disclosure inside a summary it is what a reader sees, put in order. */
  lemma {:induction false} TextIsWhatIsSeen(d: Doc)
    ensures PutInOrder(TextOf(Run(START, Tokens(d)).chunks), Concat(Run(START, Tokens(d)).chunks))
    ensures Plain(d, false) ==> PutInOrder(TextOf(Run(START, Tokens(d)).chunks), Concat(Seen(d, [], Promised())))
  {
    hide PutInOrder, TextOf, Concat, Seen, Run;
    TextIsInOrder(Run(START, Tokens(d)).chunks);
    if Plain(d, false) { PlainDocumentsAreCorrect(d); }
  }
}
