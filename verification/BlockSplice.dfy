/** The update-mode page assembler of `block_splice.py`. */
module BlockSplice {
  import opened Text
  import opened Html
  import opened Segmenter
  import opened Sorting

  // Unchanged units keep their source text, modified ones are swapped for their fragment, removed ones dropped,
  // added fragments inserted after the last unit of their kind.  The second half shows on well-nested pages what
  // the assembled page consists of.

  /** The dispositions of an update and the fragments at hand. */
  datatype Update = Update(
    fragments: map<string, string>, modified: set<string>, added: set<string>, removed: set<string>)

  // ----- placement -----

  predicate IsAlpha(c: char) { 'a' <= c <= 'z' || 'A' <= c <= 'Z' }

  function AlphaPrefix(ref: string): string {
    if ref != "" && IsAlpha(ref[0]) then [ref[0]] + AlphaPrefix(ref[1..]) else ""
  }

  /** The id kind of a ref: its leading letters, or the whole ref if it has none. */
  function IdKind(ref: string): string {
    if AlphaPrefix(ref) == "" then ref else AlphaPrefix(ref)
  }

  /** `p` is all the letters that `s` starts with. */
  ghost predicate StartsWithLetters(s: string, p: string) {
    p <= s && (forall k :: 0 <= k < |p| ==> IsAlpha(p[k])) && (|p| < |s| ==> !IsAlpha(s[|p|]))
  }

  /** Refs are of one kind when they start with the same letters, or with none and are equal. */
  ghost predicate SameKind(a: string, b: string) {
    exists p :: StartsWithLetters(a, p) && StartsWithLetters(b, p) && (p == "" ==> a == b)
  }

  lemma {:induction false} AlphaPrefixIs(s: string)
    ensures forall p :: StartsWithLetters(s, p) <==> p == AlphaPrefix(s)
  {
    var q := AlphaPrefix(s);
    if q != "" { AlphaPrefixIs(s[1..]); }
    assert StartsWithLetters(s, q) by {
      if q != "" { assert StartsWithLetters(s[1..], q[1..]) && s == [s[0]] + s[1..]; }
    }
    forall p | StartsWithLetters(s, p) ensures p == q {
      assert forall k :: 0 <= k < |p| ==> s[k] == p[k];
      assert forall k :: 0 <= k < |q| ==> s[k] == q[k];
    }
  }

  lemma {:induction false} KindsAgree(a: string, b: string)
    ensures IdKind(a) == IdKind(b) <==> SameKind(a, b)
  {
    AlphaPrefixIs(a);
    AlphaPrefixIs(b);
    var p, q := AlphaPrefix(a), AlphaPrefix(b);
    if p == "" != q && a != "" { assert IsAlpha(q[0]); }
    if q == "" != p && b != "" { assert IsAlpha(p[0]); }
    if IdKind(a) == IdKind(b) { assert StartsWithLetters(a, p) && StartsWithLetters(b, p); }
  }

  /** The last of the first `n` segments labelled with a ref of this kind, or -1. */
  function LastOfKind(segs: seq<Segment>, kind: string, n: nat): (i: int)
    requires n <= |segs|
    ensures -1 <= i < n
  {
    if n == 0 then -1
    else if segs[n - 1].ref.Some? && IdKind(segs[n - 1].ref.value) == kind then n - 1
    else LastOfKind(segs, kind, n - 1)
  }

  /** The segment an added fragment goes after; -1 on a page without units. */
  function Place(segs: seq<Segment>, ref: string): (i: int)
    ensures -1 <= i < |segs| && (i == -1 <==> segs == [])
  {
    var last := LastOfKind(segs, IdKind(ref), |segs|);
    if last != -1 then last else |segs| - 1
  }

  /** Segment `k` is labelled with a ref of the kind of `ref`. */
  ghost predicate OfKind(segs: seq<Segment>, ref: string, k: int) {
    0 <= k < |segs| && segs[k].ref.Some? && SameKind(segs[k].ref.value, ref)
  }

  /** An added fragment belongs after the last segment of its kind, or after the last segment when there is none of
      its kind; -1 is the end of a page without units. */
  ghost predicate GoesAfter(segs: seq<Segment>, ref: string, i: int) {
    || (OfKind(segs, ref, i) && forall k :: i < k < |segs| ==> !OfKind(segs, ref, k))
    || (i == |segs| - 1 && forall k :: 0 <= k < |segs| ==> !OfKind(segs, ref, k))
  }

  lemma {:induction false} LastOfKindIs(segs: seq<Segment>, ref: string, n: nat)
    requires n <= |segs|
    ensures var i := LastOfKind(segs, IdKind(ref), n);
      && (i != -1 ==> OfKind(segs, ref, i))
      && forall k :: i < k < n ==> !OfKind(segs, ref, k)
  {
    hide IdKind, SameKind;
    if n > 0 {
      if segs[n - 1].ref.Some? { KindsAgree(segs[n - 1].ref.value, ref); }
      LastOfKindIs(segs, ref, n - 1);
    }
  }

  lemma {:induction false} PlaceIs(segs: seq<Segment>, ref: string, i: int)
    ensures GoesAfter(segs, ref, i) <==> Place(segs, ref) == i
  {
    hide IdKind, SameKind;
    LastOfKindIs(segs, ref, |segs|);
  }

  lemma {:induction false} KindOf(ref: string, p: string)
    requires |p| == 2 < |ref| && ref[..2] == p && IsAlpha(p[0]) && IsAlpha(p[1]) && !IsAlpha(ref[2])
    ensures IdKind(ref) == p
  {
    hide AlphaPrefix;
    AlphaPrefixIs(ref);
    assert StartsWithLetters(ref, p);
  }

  /** On a page with a functional requirement and then a success criterion another requirement goes between them, and
      a user story to the end. */
  lemma {:induction false} AddedJoinsItsKind(a: Segment, b: Segment)
    requires a.ref == Some("FR-001") && b.ref == Some("SC-001")
    ensures GoesAfter([a, b], "FR-002", 0) && GoesAfter([a, b], "US1", 1)
  {
    hide StartsWithLetters, AlphaPrefix, SameKind;
    KindOf("FR-001", "FR");
    KindOf("FR-002", "FR");
    KindOf("SC-001", "SC");
    KindOf("US1", "US");
    KindsAgree("FR-001", "FR-002");
    KindsAgree("FR-001", "US1");
    KindsAgree("SC-001", "US1");
    KindsAgree("SC-001", "FR-002");
  }

  /** The refs among the first `n` whose fragment goes after segment `i`. */
  function Bucket(segs: seq<Segment>, u: Update, order: seq<string>, i: int, n: nat): seq<string>
    requires n <= |order|
  {
    if n == 0 then []
    else if order[n - 1] in u.fragments && Place(segs, order[n - 1]) == i
    then Bucket(segs, u, order, i, n - 1) + [order[n - 1]]
    else Bucket(segs, u, order, i, n - 1)
  }

  /** The fragments of these refs, each on a new line. */
  function Insertions(u: Update, refs: seq<string>): string {
    if refs == [] then ""
    else "\n" + (if refs[0] in u.fragments then u.fragments[refs[0]] else "") + Insertions(u, refs[1..])
  }

  // ----- what stands in a unit's place -----

  predicate Drops(u: Update, seg: Segment) {
    seg.ref.Some? && seg.ref.value in u.removed
  }

  predicate Swaps(u: Update, seg: Segment) {
    !Drops(u, seg) && seg.ref.Some? && seg.ref.value in u.modified
  }

  function Kept(u: Update, seg: Segment): string {
    if Drops(u, seg) then ""
    else if Swaps(u, seg) && seg.ref.value in u.fragments then u.fragments[seg.ref.value]
    else seg.html
  }

  function InPlace(segs: seq<Segment>, u: Update, order: seq<string>, i: nat): string
    requires i < |segs|
  {
    Kept(u, segs[i]) + Insertions(u, Bucket(segs, u, order, i, |order|))
  }

  /** The page from `cursor` on, with segment `k` of those from `i` on replaced by `place[k]`. */
  function Assembled(html: string, segs: seq<Segment>, place: seq<string>, i: nat, cursor: nat): string
    requires i <= |segs| == |place|
    decreases |segs| - i
  {
    if i == |segs| then Cut(html, cursor, |html|)
    else Cut(html, cursor, segs[i].start) + place[i] + Assembled(html, segs, place, i + 1, segs[i].end)
  }

  function Places(segs: seq<Segment>, u: Update, order: seq<string>): (place: seq<string>)
    ensures |place| == |segs|
  {
    seq(|segs|, i requires 0 <= i < |segs| => InPlace(segs, u, order, i))
  }

  /** The assembled page. */
  function Spliced(html: string, segs: seq<Segment>, u: Update, order: seq<string>): string {
    Assembled(html, segs, Places(segs, u, order), 0, 0) + Insertions(u, Bucket(segs, u, order, -1, |order|))
  }

  // ----- what is reported -----

  /** Of the first `n` refs to add those that have a fragment (`have`) or have none. */
  function AddedReport(u: Update, order: seq<string>, n: nat, have: bool): seq<string>
    requires n <= |order|
  {
    if n == 0 then []
    else if (order[n - 1] in u.fragments) == have then AddedReport(u, order, n - 1, have) + [order[n - 1]]
    else AddedReport(u, order, n - 1, have)
  }

  /** Of the first `n` segments the refs of those to be swapped that have a fragment (`have`) or have none. */
  function ModifiedReport(u: Update, segs: seq<Segment>, n: nat, have: bool): seq<string>
    requires n <= |segs|
  {
    if n == 0 then []
    else if Swaps(u, segs[n - 1]) && (segs[n - 1].ref.value in u.fragments) == have
    then ModifiedReport(u, segs, n - 1, have) + [segs[n - 1].ref.value]
    else ModifiedReport(u, segs, n - 1, have)
  }

  function Report(u: Update, segs: seq<Segment>, order: seq<string>, have: bool): seq<string> {
    AddedReport(u, order, |order|, have) + ModifiedReport(u, segs, |segs|, have)
  }

  // ----- the assembler -----

  method LastUnits(segs: seq<Segment>) returns (lastUnitByKind: map<string, nat>)
    ensures forall k :: k in lastUnitByKind <==> LastOfKind(segs, k, |segs|) != -1
    ensures forall k :: k in lastUnitByKind ==> lastUnitByKind[k] == LastOfKind(segs, k, |segs|)
  {
    lastUnitByKind := map[];
    for i := 0 to |segs|
      invariant forall k :: k in lastUnitByKind <==> LastOfKind(segs, k, i) != -1
      invariant forall k :: k in lastUnitByKind ==> lastUnitByKind[k] == LastOfKind(segs, k, i)
    {
      if segs[i].ref.Some? {
        lastUnitByKind := lastUnitByKind[IdKind(segs[i].ref.value) := i];
      }
    }
  }

  /** The refs queued after segment `i`. */
  function Queue(addedAfter: map<int, seq<string>>, i: int): seq<string> {
    if i in addedAfter then addedAfter[i] else []
  }

  lemma {:induction false} IncreasingMore(s: seq<string>, order: seq<string>, n: nat)
    requires Increasing(order) && n < |order| && Increasing(s) && forall x :: x in s ==> x in order[..n]
    ensures Increasing(s + [order[n]])
  {
    var t := s + [order[n]];
    forall i, j | 0 <= i < j < |t| ensures Less(t[i], t[j]) {
      if j == |s| {
        assert s[i] in order[..n];
        var k :| 0 <= k < n && order[..n][k] == s[i];
        assert Less(order[k], order[n]);
      }
    }
  }

  /** The queue of segment `i` holds those refs to add that have a fragment and belong there, in order. */
  lemma {:induction false} BucketIs(segs: seq<Segment>, u: Update, order: seq<string>, i: int, n: nat)
    requires n <= |order|
    ensures forall r ::
      r in Bucket(segs, u, order, i, n) <==> r in order[..n] && r in u.fragments && GoesAfter(segs, r, i)
    ensures Increasing(order) ==> Increasing(Bucket(segs, u, order, i, n))
  {
    hide Place, GoesAfter;
    if n > 0 {
      assert order[..n] == order[..n - 1] + [order[n - 1]];
      PlaceIs(segs, order[n - 1], i);
      BucketIs(segs, u, order, i, n - 1);
      if Increasing(order) { IncreasingMore(Bucket(segs, u, order, i, n - 1), order, n - 1); }
    }
  }

  lemma {:induction false} QueuesAre(segs: seq<Segment>, u: Update, order: seq<string>,
                                     addedAfter: map<int, seq<string>>)
    requires forall i :: Queue(addedAfter, i) == Bucket(segs, u, order, i, |order|)
    ensures forall i, r :: r in Queue(addedAfter, i) <==> r in order && r in u.fragments && GoesAfter(segs, r, i)
    ensures Increasing(order) ==> forall i :: Increasing(Queue(addedAfter, i))
  {
    hide Queue, Bucket, GoesAfter, Increasing;
    assert order[..|order|] == order;
    forall i
      ensures forall r :: r in Queue(addedAfter, i) <==> r in order && r in u.fragments && GoesAfter(segs, r, i)
      ensures Increasing(order) ==> Increasing(Queue(addedAfter, i))
    {
      BucketIs(segs, u, order, i, |order|);
    }
  }

  /** Distributes the fragments to add over the segments they go after. */
  method PlaceAdded(segs: seq<Segment>, u: Update, order: seq<string>)
    returns (addedAfter: map<int, seq<string>>, missing: seq<string>, spliced: seq<string>)
    ensures forall i :: Queue(addedAfter, i) == Bucket(segs, u, order, i, |order|)
    ensures forall i, r :: r in Queue(addedAfter, i) <==> r in order && r in u.fragments && GoesAfter(segs, r, i)
    ensures Increasing(order) ==> forall i :: Increasing(Queue(addedAfter, i))
    ensures missing == AddedReport(u, order, |order|, false)
    ensures spliced == AddedReport(u, order, |order|, true)
  {
    var lastUnitByKind := LastUnits(segs);
    addedAfter, missing, spliced := map[], [], [];
    for n := 0 to |order|
      invariant forall i :: Queue(addedAfter, i) == Bucket(segs, u, order, i, n)
      invariant missing == AddedReport(u, order, n, false)
      invariant spliced == AddedReport(u, order, n, true)
    {
      var ref := order[n];
      if ref !in u.fragments {
        missing := missing + [ref];
      } else {
        var kind := IdKind(ref);
        var at := if kind in lastUnitByKind then lastUnitByKind[kind] else |segs| - 1;
        ghost var before := addedAfter;
        addedAfter := addedAfter[at := Queue(addedAfter, at) + [ref]];
        assert at == Place(segs, ref);
        forall i ensures Queue(addedAfter, i) == Bucket(segs, u, order, i, n + 1) {
          assert Queue(before, i) == Bucket(segs, u, order, i, n);
        }
        spliced := spliced + [ref];
      }
    }
    QueuesAre(segs, u, order, addedAfter);
  }

  method AppendInsertions(out: string, u: Update, refs: seq<string>) returns (r: string)
    requires forall x :: x in refs ==> x in u.fragments
    ensures r == out + Insertions(u, refs)
  {
    r := out;
    for k := 0 to |refs|
      invariant r + Insertions(u, refs[k..]) == out + Insertions(u, refs)
    {
      var rest := refs[k..];
      assert rest[1..] == refs[k + 1..] && rest[0] == refs[k];
      Assoc(r, "\n" + u.fragments[refs[k]], Insertions(u, refs[k + 1..]));
      r := r + ("\n" + u.fragments[refs[k]]);
    }
    assert refs[|refs|..] == [];
    assert r + "" == r;
  }

  lemma {:induction false} BucketHasFragments(segs: seq<Segment>, u: Update, order: seq<string>, i: int, n: nat)
    requires n <= |order|
    ensures forall x :: x in Bucket(segs, u, order, i, n) ==> x in u.fragments && x in order
  {
    if n > 0 { BucketHasFragments(segs, u, order, i, n - 1); }
  }

  method SpliceUpdate(ids: string -> set<string>, priorHtml: string, tokens: seq<Token>, u: Update)
    returns (html: string, missing: seq<string>, spliced: seq<string>)
    ensures var segs, order := Segments(ids, priorHtml, tokens), Sorted(u.added);
      && html == Spliced(priorHtml, segs, u, order)
      && missing == Report(u, segs, order, false)
      && spliced == Report(u, segs, order, true)
      && exists offs :: CutAtUnits(priorHtml, segs, u, html, offs)
  {
    hide CutAtUnits, Report, Spliced;
    var segs := SegmentUnits(ids, priorHtml, tokens);
    var order := Sort(u.added);
    SortedIsUnique(order, Sorted(u.added), u.added);
    var addedAfter, missing0, spliced0 := PlaceAdded(segs, u, order);
    var out, mods, modsSpliced := PlaceSegments(priorHtml, segs, u, order, addedAfter);
    missing, spliced := missing0 + mods, spliced0 + modsSpliced;
    BucketHasFragments(segs, u, order, -1, |order|);
    html := AppendInsertions(out, u, Queue(addedAfter, -1));
    AssembledAndEnd(priorHtml, segs, u, order);
    ReportIs(u, segs, order);
    ghost var offs := SplicedPieces(priorHtml, segs, u, order);
  }

  lemma {:induction false} AssembledAndEnd(html: string, segs: seq<Segment>, u: Update, order: seq<string>)
    ensures Spliced(html, segs, u, order)
      == Assembled(html, segs, Places(segs, u, order), 0, 0) + Insertions(u, Bucket(segs, u, order, -1, |order|))
  {
  }

  lemma {:induction false} ReportIs(u: Update, segs: seq<Segment>, order: seq<string>)
    ensures forall have ::
      Report(u, segs, order, have) == AddedReport(u, order, |order|, have) + ModifiedReport(u, segs, |segs|, have)
  {
  }

  /** What is put in a segment's place, and the ref to report. */
  method PlaceSegment(u: Update, seg: Segment) returns (kept: string, missing: seq<string>, spliced: seq<string>)
    ensures kept == Kept(u, seg)
    ensures missing == if Swaps(u, seg) && seg.ref.value !in u.fragments then [seg.ref.value] else []
    ensures spliced == if Swaps(u, seg) && seg.ref.value in u.fragments then [seg.ref.value] else []
  {
    kept, missing, spliced := "", [], [];
    if seg.ref.Some? && seg.ref.value in u.removed {
    } else if seg.ref.Some? && seg.ref.value in u.modified {
      if seg.ref.value !in u.fragments {
        missing := [seg.ref.value];
        kept := seg.html;
      } else {
        kept := u.fragments[seg.ref.value];
        spliced := [seg.ref.value];
      }
    } else {
      kept := seg.html;
    }
  }

  lemma {:induction false} AssembledStep(out: string, html: string, segs: seq<Segment>, place: seq<string>, i: nat,
                                         cursor: nat)
    requires i < |segs| == |place|
    ensures out + Assembled(html, segs, place, i, cursor)
      == (out + (Cut(html, cursor, segs[i].start) + place[i])) + Assembled(html, segs, place, i + 1, segs[i].end)
  {
    Assoc(out, Cut(html, cursor, segs[i].start) + place[i], Assembled(html, segs, place, i + 1, segs[i].end));
  }

  /** The walk over the prior page: filler, unit, additions, unit by unit. */
  method PlaceSegments(html: string, segs: seq<Segment>, u: Update, order: seq<string>,
                       addedAfter: map<int, seq<string>>)
    returns (out: string, missing: seq<string>, spliced: seq<string>)
    requires forall i :: Queue(addedAfter, i) == Bucket(segs, u, order, i, |order|)
    ensures out == Assembled(html, segs, Places(segs, u, order), 0, 0)
    ensures missing == ModifiedReport(u, segs, |segs|, false)
    ensures spliced == ModifiedReport(u, segs, |segs|, true)
  {
    hide Kept, Swaps, Drops, Bucket, Insertions, Cut;
    out, missing, spliced := "", [], [];
    var cursor := 0;
    ghost var place := Places(segs, u, order);
    for i := 0 to |segs|
      invariant out + Assembled(html, segs, place, i, cursor) == Assembled(html, segs, place, 0, 0)
      invariant missing == ModifiedReport(u, segs, i, false)
      invariant spliced == ModifiedReport(u, segs, i, true)
    {
      var seg := segs[i];
      var filler := Cut(html, cursor, seg.start);
      var kept, lacks, places := PlaceSegment(u, seg);
      missing, spliced := missing + lacks, spliced + places;
      BucketHasFragments(segs, u, order, i, |order|);
      var added := AppendInsertions("", u, Queue(addedAfter, i));
      assert place[i] == kept + added;
      AssembledStep(out, html, segs, place, i, cursor);
      out := out + (filler + (kept + added));
      cursor := seg.end;
    }
    out := out + Cut(html, cursor, |html|);
  }

  // ----- the assembled page, piece by piece -----

  /** The refs to add after segment `i`, in order. */
  ghost predicate IsQueue(segs: seq<Segment>, u: Update, i: int, refs: seq<string>) {
    Increasing(refs) && forall r :: r in refs <==> r in u.added && r in u.fragments && GoesAfter(segs, r, i)
  }

  /** What becomes of a unit: it goes, its fragment replaces it, or it stays as it is. */
  ghost predicate Becomes(u: Update, seg: Segment, text: string) {
    match seg.ref
    case None => text == seg.html
    case Some(r) =>
      if r in u.removed then text == ""
      else if r in u.modified && r in u.fragments then text == u.fragments[r]
      else text == seg.html
  }

  ghost predicate PieceOf(prior: string, segs: seq<Segment>, u: Update, i: nat, piece: string)
    requires i < |segs|
  {
    exists own, refs ::
      && Becomes(u, segs[i], own) && IsQueue(segs, u, i, refs)
      && piece == Cut(prior, if i == 0 then 0 else segs[i - 1].end, segs[i].start) + own + Insertions(u, refs)
  }

  ghost predicate EndOf(prior: string, segs: seq<Segment>, u: Update, piece: string) {
    exists refs :: IsQueue(segs, u, -1, refs)
      && piece == Cut(prior, if segs == [] then 0 else segs[|segs| - 1].end, |prior|) + Insertions(u, refs)
  }

  /** The page is cut at `offs`: for each unit of the prior page what stood before it, what it becomes and what is added
      after it, and at the end what stood after the last unit. */
  ghost predicate CutAtUnits(prior: string, segs: seq<Segment>, u: Update, page: string, offs: seq<nat>) {
    && |offs| == |segs| + 1 && offs[0] == 0 && offs[|segs|] <= |page|
    && (forall i: nat, j: nat :: j == i + 1 <= |segs| ==>
          offs[i] <= offs[j] <= |page| && PieceOf(prior, segs, u, i, page[offs[i]..offs[j]]))
    && EndOf(prior, segs, u, page[offs[|segs|]..])
  }

  /** The fragments of refs in a row, each on a new line. */
  lemma {:induction false} InsertionsInOrder(u: Update, a: seq<string>, r: string, b: seq<string>)
    requires r in u.fragments
    ensures Insertions(u, a + [r] + b) == Insertions(u, a) + ("\n" + u.fragments[r]) + Insertions(u, b)
  {
    var all := a + [r] + b;
    if a == [] {
      assert all[0] == r && all[1..] == b;
    } else {
      assert all[0] == a[0] && all[1..] == a[1..] + [r] + b;
      InsertionsInOrder(u, a[1..], r, b);
    }
  }

  ghost function CursorAt(segs: seq<Segment>, i: nat): nat
    requires i <= |segs|
  {
    if i == 0 then 0 else segs[i - 1].end
  }

  /** The first `i` pieces. */
  ghost function WrittenSoFar(html: string, segs: seq<Segment>, place: seq<string>, i: nat): string
    requires i <= |segs| == |place|
  {
    if i == 0 then ""
    else WrittenSoFar(html, segs, place, i - 1) + (Cut(html, CursorAt(segs, i - 1), segs[i - 1].start) + place[i - 1])
  }

  lemma {:induction false} WrittenThenRest(html: string, segs: seq<Segment>, place: seq<string>, i: nat)
    requires i <= |segs| == |place|
    ensures Assembled(html, segs, place, 0, 0)
      == WrittenSoFar(html, segs, place, i) + Assembled(html, segs, place, i, CursorAt(segs, i))
  {
    hide Assembled, Cut;
    if i > 0 {
      WrittenThenRest(html, segs, place, i - 1);
      AssembledStep(WrittenSoFar(html, segs, place, i - 1), html, segs, place, i - 1, CursorAt(segs, i - 1));
    }
  }

  lemma {:induction false} PieceIs(html: string, segs: seq<Segment>, u: Update, order: seq<string>, i: nat)
    requires Lists(order, u.added) && i < |segs|
    ensures PieceOf(html, segs, u, i, Cut(html, CursorAt(segs, i), segs[i].start) + Places(segs, u, order)[i])
  {
    hide Cut, Insertions, Bucket, GoesAfter;
    var refs, own := Bucket(segs, u, order, i, |order|), Kept(u, segs[i]);
    BucketIsQueue(segs, u, order, i);
    assert Becomes(u, segs[i], own);
    var filler := Cut(html, CursorAt(segs, i), segs[i].start);
    Assoc(filler, own, Insertions(u, refs));
    assert IsQueue(segs, u, i, refs);
  }

  lemma {:induction false} BucketIsQueue(segs: seq<Segment>, u: Update, order: seq<string>, i: int)
    requires Lists(order, u.added)
    ensures IsQueue(segs, u, i, Bucket(segs, u, order, i, |order|))
  {
    hide Bucket, GoesAfter;
    BucketIs(segs, u, order, i, |order|);
    assert order[..|order|] == order;
  }

  /** The assembled page consists of these pieces, on any page and in any state of the fragments. */
  lemma {:induction false} SplicedPieces(html: string, segs: seq<Segment>, u: Update, order: seq<string>)
    returns (offs: seq<nat>)
    requires Lists(order, u.added)
    ensures CutAtUnits(html, segs, u, Spliced(html, segs, u, order), offs)
  {
    hide PieceOf, IsQueue, Places, Lists, Cut, Insertions, Bucket;
    var page, place, n := Spliced(html, segs, u, order), Places(segs, u, order), |segs|;
    offs := seq(n + 1, i requires 0 <= i <= n => |WrittenSoFar(html, segs, place, i)|);
    var end := Insertions(u, Bucket(segs, u, order, -1, |order|));
    forall i: nat, j: nat | j == i + 1 <= n
      ensures offs[i] <= offs[j] <= |page| && PieceOf(html, segs, u, i, page[offs[i]..offs[j]])
    {
      PieceAt(html, segs, u, order, i);
    }
    WrittenThenRest(html, segs, place, n);
    var tail := Cut(html, CursorAt(segs, n), |html|);
    assert page == WrittenSoFar(html, segs, place, n) + (tail + end) by {
      Assoc(WrittenSoFar(html, segs, place, n), tail, end);
    }
    CutAt(page, WrittenSoFar(html, segs, place, n), tail + end);
    BucketIsQueue(segs, u, order, -1);
  }

  lemma {:induction false} PieceAt(html: string, segs: seq<Segment>, u: Update, order: seq<string>, i: nat)
    requires Lists(order, u.added) && i < |segs|
    ensures var page, place := Spliced(html, segs, u, order), Places(segs, u, order);
      var a, b := |WrittenSoFar(html, segs, place, i)|, |WrittenSoFar(html, segs, place, i + 1)|;
      a <= b <= |page| && PieceOf(html, segs, u, i, page[a..b])
  {
    hide PieceOf, Places, Lists, Cut, Insertions, Bucket, Assembled;
    var page, place := Spliced(html, segs, u, order), Places(segs, u, order);
    var before, piece := WrittenSoFar(html, segs, place, i), Cut(html, CursorAt(segs, i), segs[i].start) + place[i];
    WrittenThenRest(html, segs, place, i + 1);
    PieceIs(html, segs, u, order, i);
    var rest := Assembled(html, segs, place, i + 1, CursorAt(segs, i + 1));
    var end := Insertions(u, Bucket(segs, u, order, -1, |order|));
    assert page == before + piece + (rest + end) by { Assoc(before + piece, rest, end); }
    CutInThree(page, before, piece, rest + end);
  }

  // ----- reports, on any page -----

  lemma {:induction false} TakeOneMore(order: seq<string>, n: nat)
    requires Increasing(order) && 0 < n <= |order|
    ensures order[..n] == order[..n - 1] + [order[n - 1]]
    ensures order[n - 1] !in order[..n - 1]
  {
    forall k | 0 <= k < n - 1 ensures order[k] != order[n - 1] { NoRepeats(order, k, n - 1); }
  }

  lemma {:induction false} BucketCounts(segs: seq<Segment>, u: Update, order: seq<string>, i: int, n: nat, r: string)
    requires Increasing(order) && n <= |order|
    ensures multiset(Bucket(segs, u, order, i, n))[r]
      == if r in order[..n] && r in u.fragments && Place(segs, r) == i then 1 else 0
  {
    hide Place, Increasing;
    if n > 0 {
      TakeOneMore(order, n);
      BucketCounts(segs, u, order, i, n - 1, r);
    }
  }

  lemma {:induction false} AddedReportCounts(u: Update, order: seq<string>, n: nat, have: bool, r: string)
    requires Increasing(order) && n <= |order|
    ensures multiset(AddedReport(u, order, n, have))[r]
      == if r in order[..n] && (r in u.fragments) == have then 1 else 0
  {
    if n > 0 {
      TakeOneMore(order, n);
      AddedReportCounts(u, order, n - 1, have, r);
    }
  }

  /** The fragment of a ref to add goes in at exactly one place, once, and the ref is reported as spliced; or it
      has no fragment, goes nowhere and is reported as missing once.  Never both, with or without units. */
  lemma {:induction false} AddedOnceOrMissing(segs: seq<Segment>, u: Update, order: seq<string>, r: string)
    requires Lists(order, u.added) && r in u.added
    ensures var n := |order|;
      && (Place(segs, r) == -1 <==> segs == [])
      && (forall i :: multiset(Bucket(segs, u, order, i, n))[r]
            == if r in u.fragments && i == Place(segs, r) then 1 else 0)
      && multiset(AddedReport(u, order, n, true))[r] == (if r in u.fragments then 1 else 0)
      && multiset(AddedReport(u, order, n, false))[r] == (if r in u.fragments then 0 else 1)
  {
    assert order[..|order|] == order;
    forall i
      ensures multiset(Bucket(segs, u, order, i, |order|))[r]
        == if r in u.fragments && i == Place(segs, r) then 1 else 0
    {
      BucketCounts(segs, u, order, i, |order|, r);
    }
    AddedReportCounts(u, order, |order|, true, r);
    AddedReportCounts(u, order, |order|, false, r);
  }

  lemma {:induction false} ModifiedReportHas(u: Update, segs: seq<Segment>, n: nat, have: bool, r: string)
    requires n <= |segs|
    ensures r in ModifiedReport(u, segs, n, have)
      <==> r in u.modified && r !in u.removed && (r in u.fragments) == have
           && exists k :: 0 <= k < n && segs[k].ref == Some(r)
  {
    if n > 0 { ModifiedReportHas(u, segs, n - 1, have, r); }
  }

  lemma {:induction false} AddedReportHas(u: Update, order: seq<string>, n: nat, have: bool, r: string)
    requires n <= |order|
    ensures r in AddedReport(u, order, n, have) <==> r in order[..n] && (r in u.fragments) == have
  {
    if n > 0 {
      assert order[..n] == order[..n - 1] + [order[n - 1]];
      AddedReportHas(u, order, n - 1, have, r);
    }
  }

  ghost predicate Labels(segs: seq<Segment>, r: string) {
    exists k :: 0 <= k < |segs| && segs[k].ref == Some(r)
  }

  /** Exactly which refs are reported missing.  A modified ref without a fragment is reported only when some unit
      of the prior page carries it and it is not to be removed as well. */
  lemma {:induction false} MissingExactly(segs: seq<Segment>, u: Update, order: seq<string>, r: string)
    requires Lists(order, u.added)
    ensures r in Report(u, segs, order, false)
      <==> r !in u.fragments
           && (r in u.added || (r in u.modified && r !in u.removed && Labels(segs, r)))
  {
    AddedReportHas(u, order, |order|, false, r);
    ModifiedReportHas(u, segs, |segs|, false, r);
    assert order[..|order|] == order;
  }

  /** Exactly which refs are reported as spliced: those whose fragment was placed. */
  lemma {:induction false} SplicedExactly(segs: seq<Segment>, u: Update, order: seq<string>, r: string)
    requires Lists(order, u.added)
    ensures r in Report(u, segs, order, true)
      <==> r in u.fragments
           && (r in u.added || (r in u.modified && r !in u.removed && Labels(segs, r)))
  {
    AddedReportHas(u, order, |order|, true, r);
    ModifiedReportHas(u, segs, |segs|, true, r);
    assert order[..|order|] == order;
  }

  /** The unit is to be swapped, and its fragment is there (`have`) or is not. */
  ghost predicate IsSwapped(u: Update, seg: Segment, have: bool) {
    exists r :: seg.ref == Some(r) && r in u.modified && r !in u.removed && (r in u.fragments) == have
  }

  lemma {:induction false} SwappedIff(u: Update, seg: Segment, have: bool)
    ensures IsSwapped(u, seg, have) <==> Swaps(u, seg) && (seg.ref.value in u.fragments) == have
  {
  }

  /** The units are those among the first `n` that are to be swapped, in order, and `refs` are their refs. */
  ghost predicate ListsSwapped(u: Update, segs: seq<Segment>, n: nat, have: bool, units: seq<nat>, refs: seq<string>) {
    && (forall k: nat :: k in units <==> k < n && k < |segs| && IsSwapped(u, segs[k], have))
    && (forall x, y :: 0 <= x < y < |units| ==> units[x] < units[y])
    && |units| == |refs|
    && forall x :: 0 <= x < |units| ==> units[x] < |segs| && segs[units[x]].ref == Some(refs[x])
  }

  lemma {:induction false} NoUnits(u: Update, segs: seq<Segment>, have: bool)
    ensures ListsSwapped(u, segs, 0, have, [], [])
  {
  }

  lemma {:induction false} ModifiedInOrder(u: Update, segs: seq<Segment>, n: nat, have: bool) returns (units: seq<nat>)
    requires n <= |segs|
    ensures ListsSwapped(u, segs, n, have, units, ModifiedReport(u, segs, n, have))
  {
    hide IsSwapped, Swaps, ListsSwapped;
    units := [];
    NoUnits(u, segs, have);
    if n > 0 {
      var front := ModifiedInOrder(u, segs, n - 1, have);
      SwappedIff(u, segs[n - 1], have);
      OneMoreUnit(u, segs, n - 1, have, front, ModifiedReport(u, segs, n - 1, have));
      units := if IsSwapped(u, segs[n - 1], have) then front + [n - 1] else front;
    }
  }

  lemma {:induction false} OneMoreUnit(u: Update, segs: seq<Segment>, n: nat, have: bool, units: seq<nat>,
                                       refs: seq<string>)
    requires n < |segs| && ListsSwapped(u, segs, n, have, units, refs)
    ensures if IsSwapped(u, segs[n], have) then
              segs[n].ref.Some? && ListsSwapped(u, segs, n + 1, have, units + [n], refs + [segs[n].ref.value])
            else ListsSwapped(u, segs, n + 1, have, units, refs)
  {
    assert forall x :: 0 <= x < |units| ==> units[x] in units;
    if IsSwapped(u, segs[n], have) {
      var more := units + [n];
      assert forall k: nat :: k in more <==> k in units || k == n;
    }
  }

  lemma {:induction false} AddedInOrder(u: Update, order: seq<string>, n: nat, have: bool)
    requires Increasing(order) && n <= |order|
    ensures Increasing(AddedReport(u, order, n, have))
  {
    if n > 0 {
      AddedInOrder(u, order, n - 1, have);
      var front := AddedReport(u, order, n - 1, have);
      forall x | x in front ensures x in order[..n - 1] { AddedReportHas(u, order, n - 1, have, x); }
      IncreasingMore(front, order, n - 1);
    }
  }

  /** The order of a report: first `count` refs to add, sorted, then the refs of the units to be swapped, unit by unit
      down the page, with repetitions. */
  lemma {:induction false} ReportInOrder(segs: seq<Segment>, u: Update, order: seq<string>, have: bool)
    returns (count: nat, units: seq<nat>)
    requires Lists(order, u.added)
    ensures var report := Report(u, segs, order, have);
      && |report| == count + |units|
      && Increasing(report[..count])
      && (forall r :: r in report[..count] <==> r in u.added && (r in u.fragments) == have)
      && (forall k: nat :: k in units <==> k < |segs| && IsSwapped(u, segs[k], have))
      && (forall x, y :: 0 <= x < y < |units| ==> units[x] < units[y])
      && forall x :: 0 <= x < |units| ==>
           units[x] < |segs| && segs[units[x]].ref == Some(report[count + x])
  {
    hide IsSwapped, Swaps;
    count := |AddedReport(u, order, |order|, have)|;
    units := ModifiedInOrder(u, segs, |segs|, have);
    AddedInOrder(u, order, |order|, have);
    forall r ensures r in AddedReport(u, order, |order|, have) <==> r in u.added && (r in u.fragments) == have {
      AddedReportHas(u, order, |order|, have, r);
      assert order[..|order|] == order;
    }
    CutAt(Report(u, segs, order, have), AddedReport(u, order, |order|, have), ModifiedReport(u, segs, |segs|, have));
  }

  /** The documented meaning of missing: every modified or added ref without a fragment, and no other. */
  ghost predicate MissingAsDocumented(u: Update, segs: seq<Segment>, order: seq<string>) {
    forall r :: r in Report(u, segs, order, false) <==> (r in u.modified || r in u.added) && r !in u.fragments
  }

  /** The documented meaning is met exactly when every modified ref without a fragment, unless it is added as well,
      labels a unit of the prior page and is not removed. */
  lemma {:induction false} MissingAsDocumentedIff(u: Update, segs: seq<Segment>, order: seq<string>)
    requires Lists(order, u.added)
    ensures MissingAsDocumented(u, segs, order)
      <==> forall r :: r in u.modified && r !in u.fragments && r !in u.added ==> r !in u.removed && Labels(segs, r)
  {
    hide Report, Lists;
    forall r ensures r in Report(u, segs, order, false)
        <==> r !in u.fragments && (r in u.added || (r in u.modified && r !in u.removed && Labels(segs, r)))
    {
      MissingExactly(segs, u, order, r);
    }
  }

  /** It is not met when a ref is to be modified that no unit of the prior page carries: nothing is reported. */
  lemma {:induction false} UnplacedModificationGoesUnreported(ids: string -> set<string>)
    ensures var segs := Segments(ids, "Nothing yet.", [Other("Nothing yet.")]);
      var u := Update(map[], {"FR-001"}, {}, {});
      Report(u, segs, [], false) == [] && !MissingAsDocumented(u, segs, [])
  {
    var tokens := [Other("Nothing yet.")];
    var segs := Segments(ids, "Nothing yet.", tokens);
    assert tokens[1..] == [];
    assert segs == [];
    assert "FR-001" in {"FR-001"};
  }

  /** With nothing to change the page comes back byte for byte, whatever its nesting, and nothing is reported. */
  lemma {:induction false} NothingToDo(ids: string -> set<string>, html: string, tokens: seq<Token>, u: Update,
                                       order: seq<string>)
    requires Spells(html, tokens, 0)
    requires u.modified == u.added == u.removed == {} && Lists(order, u.added)
    ensures var segs := Segments(ids, html, tokens);
      && Spliced(html, segs, u, order) == html
      && Report(u, segs, order, false) == Report(u, segs, order, true) == []
  {
    var segs := Segments(ids, html, tokens);
    SegmentsInOrder(ids, html, tokens);
    NonemptyHasMember(order);
    NothingReported(u, segs, |segs|);
    AssembledAsIs(ids, html, segs, u, 0, 0);
    assert Assembled(html, segs, Places(segs, u, []), 0, 0) + "" == html;
  }

  lemma {:induction false} NothingReported(u: Update, segs: seq<Segment>, n: nat)
    requires u.modified == {} && n <= |segs|
    ensures ModifiedReport(u, segs, n, true) == ModifiedReport(u, segs, n, false) == []
  {
    if n > 0 { NothingReported(u, segs, n - 1); }
  }

  lemma {:induction false} AssembledAsIs(ids: string -> set<string>, html: string, segs: seq<Segment>, u: Update,
                                         i: nat, c: nat)
    requires u.modified == u.removed == {} && InOrder(ids, html, segs, |html|) && i <= |segs|
    requires c <= if i < |segs| then segs[i].start else |html|
    ensures Assembled(html, segs, Places(segs, u, []), i, c) == html[c..]
    decreases |segs| - i
  {
    hide InOrder;
    if i < |segs| {
      var seg := segs[i];
      SegmentOfPage(ids, html, segs, i);
      AssembledAsIs(ids, html, segs, u, i + 1, seg.end);
      assert InPlace(segs, u, [], i) == seg.html + "" == seg.html;
      CutAround(html, c, seg.start, seg.end);
    }
  }

  lemma {:induction false} SegmentOfPage(ids: string -> set<string>, html: string, segs: seq<Segment>, i: nat)
    requires InOrder(ids, html, segs, |html|) && i < |segs|
    ensures segs[i].start <= segs[i].end <= |html| && segs[i].html == html[segs[i].start..segs[i].end]
    ensures i + 1 < |segs| ==> segs[i].end <= segs[i + 1].start
  {
  }

  lemma {:induction false} CutAround(html: string, c: nat, s: nat, e: nat)
    requires c <= s <= e <= |html|
    ensures html[c..] == html[c..s] + html[s..e] + html[e..]
  {
  }
}
