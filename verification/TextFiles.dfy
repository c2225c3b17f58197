/** What reading and writing in text mode does to the bytes of a requirements file. */
module TextFiles {
  import opened Text
  import opened SurgicalEdit
  import opened Relocation

  // `apply_change_request` reads the file in text mode, which turns every "\r\n" and every "\r" into a newline, and
  // writes newlines as they are (`change_request_service.py`, lines 373-392 and 506).

  /** How many bytes the first character of the text takes. */
  function FirstLen(raw: string): (k: nat)
    requires raw != ""
    ensures 1 <= k <= |raw|
  {
    if raw[0] == '\r' && |raw| > 1 && raw[1] == '\n' then 2 else 1
  }

  function FirstChar(raw: string): char
    requires raw != ""
  {
    if raw[0] == '\r' then '\n' else raw[0]
  }

  /** The text a file reads as. */
  function ReadText(raw: string): (t: string)
    ensures '\r' !in t
  {
    if raw == "" then "" else [FirstChar(raw)] + ReadText(raw[FirstLen(raw)..])
  }

  /** How a file is read, wherever the bytes stand: a carriage return and a newline in a row, or a carriage return
      alone, read as one newline, and every other byte as it is. */
  lemma {:induction false} ReadsPieceByPiece(a: string, piece: string, c: char, b: string)
    requires || (piece == "\r\n" && c == '\n')
             || (piece == "\r" && c == '\n' && (b == "" || b[0] != '\n'))
             || (piece == [c] && c != '\r' && (c == '\n' ==> a == "" || a[|a| - 1] != '\r'))
    ensures ReadText(a + piece + b) == ReadText(a) + [c] + ReadText(b)
    decreases |a|
  {
    var raw := a + piece + b;
    if a == "" {
      assert raw == piece + b && raw[|piece|..] == b && raw[0] == piece[0];
      assert ReadText(a) + [c] == [c];
    } else {
      var k := FirstLen(a);
      assert raw[0] == a[0] && (|a| > 1 ==> raw[1] == a[1]);
      assert FirstLen(raw) == k;
      assert raw[k..] == a[k..] + piece + b;
      ReadsPieceByPiece(a[k..], piece, c, b);
      Assoc([FirstChar(a)], ReadText(a[k..]) + [c], ReadText(b));
      Assoc([FirstChar(a)], ReadText(a[k..]), [c]);
    }
  }

  /** A file reads as it is exactly when it holds no carriage return. */
  lemma {:induction false} ReadsAsItIs(raw: string)
    ensures ReadText(raw) == raw <==> '\r' !in raw
  {
    if raw != "" && raw[0] != '\r' {
      ReadsAsItIs(raw[1..]);
      assert raw == [raw[0]] + raw[1..];
    }
  }

  lemma {:induction false} ReturnReadsAsNewline(raw: string)
    requires '\r' in raw
    ensures '\n' in ReadText(raw)
  {
    if raw[0] != '\r' { ReturnReadsAsNewline(raw[1..]); }
  }

  lemma {:induction false} NoReturnWithoutNewline(raw: string)
    requires '\n' !in ReadText(raw)
    ensures '\r' !in raw
  {
    if '\r' in raw { ReturnReadsAsNewline(raw); }
  }

  /** Where the bytes of the first `n` characters of the text end in the file. */
  function RawEnd(raw: string, n: nat): (e: nat)
    requires n <= |ReadText(raw)|
    ensures e <= |raw|
  {
    if n == 0 then 0 else FirstLen(raw) + RawEnd(raw[FirstLen(raw)..], n - 1)
  }

  lemma {:induction false} FirstOfPrefix(raw: string, e: nat)
    requires raw != "" && FirstLen(raw) <= e <= |raw|
    ensures FirstLen(raw[..e]) == FirstLen(raw) && FirstChar(raw[..e]) == FirstChar(raw)
    ensures raw[..e][FirstLen(raw)..] == raw[FirstLen(raw)..][..e - FirstLen(raw)]
    ensures raw[e..] == raw[FirstLen(raw)..][e - FirstLen(raw)..]
  {
  }

  /** The bytes up to there read as these characters, and the other bytes as the rest. */
  lemma {:induction false} RawEndSplits(raw: string, n: nat)
    requires n <= |ReadText(raw)|
    ensures ReadText(raw[..RawEnd(raw, n)]) == ReadText(raw)[..n]
    ensures ReadText(raw[RawEnd(raw, n)..]) == ReadText(raw)[n..]
  {
    hide FirstLen, FirstChar;
    if n == 0 {
      assert raw[..0] == "" && raw[0..] == raw;
    } else {
      RawEndSplits(raw[FirstLen(raw)..], n - 1);
      FirstOfPrefix(raw, RawEnd(raw, n));
    }
  }

  lemma {:induction false} RawEndGrows(raw: string, m: nat, n: nat)
    requires m <= n <= |ReadText(raw)|
    ensures RawEnd(raw, m) <= RawEnd(raw, n)
  {
    hide FirstLen, FirstChar;
    if m > 0 { RawEndGrows(raw[FirstLen(raw)..], m - 1, n - 1); }
  }

  /** `after` is the file with the bytes of the characters from `from` up to `to` replaced, and every other byte in
      place. */
  predicate OthersSurvive(raw: string, from: nat, to: nat, put: string, after: string)
    requires from <= to <= |ReadText(raw)|
  {
    after == raw[..RawEnd(raw, from)] + put + raw[RawEnd(raw, to)..]
  }

  /** Every carriage return of the file lies in the bytes of these characters. */
  predicate ReturnsInside(raw: string, from: nat, to: nat)
    requires from <= to <= |ReadText(raw)|
  {
    '\r' !in raw[..RawEnd(raw, from)] && '\r' !in raw[RawEnd(raw, to)..]
  }

  /** Whatever is put in place of a region of the text: every other byte of the file survives the write exactly when
      every carriage return of the file lies in the bytes of the region. */
  lemma {:induction false} OthersSurviveIff(raw: string, pre: string, region: string, post: string, put: string)
    requires ReadText(raw) == pre + region + post
    ensures var from, to := |pre|, |pre| + |region|;
      OthersSurvive(raw, from, to, put, pre + put + post) <==> ReturnsInside(raw, from, to)
  {
    hide ReadText, RawEnd;
    var from, to := |pre|, |pre| + |region|;
    var x, z := raw[..RawEnd(raw, from)], raw[RawEnd(raw, to)..];
    RawEndSplits(raw, from);
    RawEndSplits(raw, to);
    CutInThree(pre + region + post, pre, region, post);
    ReadsAsItIs(x);
    ReadsAsItIs(z);
    if x + put + z == pre + put + post { SameReturns(x, z, pre, post, put); }
  }

  lemma {:induction false} SameReturns(x: string, z: string, pre: string, post: string, put: string)
    requires x + put + z == pre + put + post
    ensures '\r' in x || '\r' in z <==> '\r' in pre || '\r' in post
  {
    var m := multiset(x + put + z);
    assert m == multiset(x) + multiset(put) + multiset(z);
    assert m == multiset(pre) + multiset(put) + multiset(post);
    assert m['\r'] == multiset(x)['\r'] + multiset(put)['\r'] + multiset(z)['\r'];
  }

  /** A region within one line, or none at all, has no carriage return in its bytes: then the file may hold none. */
  lemma {:induction false} OneLineHoldsNoReturn(raw: string, from: nat, to: nat)
    requires from <= to <= |ReadText(raw)| && '\n' !in ReadText(raw)[from..to]
    ensures ReturnsInside(raw, from, to) <==> '\r' !in raw
  {
    hide ReadText, RawEnd;
    var b, e := RawEnd(raw, from), RawEnd(raw, to);
    RawEndSplits(raw, from);
    RawEndGrows(raw, from, to);
    var rest := raw[b..];
    RegionBytes(raw, from, to);
    NoReturnWithoutNewline(raw[b..e]);
    assert raw == raw[..b] + raw[b..e] + raw[e..];
  }

  lemma {:induction false} RegionBytes(raw: string, from: nat, to: nat)
    requires from <= to <= |ReadText(raw)| && RawEnd(raw, from) <= RawEnd(raw, to)
    ensures ReadText(raw[RawEnd(raw, from)..RawEnd(raw, to)]) == ReadText(raw)[from..to]
  {
    hide FirstLen, FirstChar;
    if from == 0 {
      RawEndSplits(raw, to);
      assert raw[0..RawEnd(raw, to)] == raw[..RawEnd(raw, to)] && ReadText(raw)[0..to] == ReadText(raw)[..to];
    } else {
      var rest := raw[FirstLen(raw)..];
      RawEndGrows(rest, from - 1, to - 1);
      RegionBytes(rest, from - 1, to - 1);
      SliceLater(raw, FirstLen(raw), RawEnd(raw, from), RawEnd(raw, to));
      SliceLater(ReadText(raw), 1, from, to);
      assert ReadText(raw)[1..] == ReadText(rest);
    }
  }

  lemma {:induction false} SliceLater(t: string, k: nat, i: nat, j: nat)
    requires k <= i <= j <= |t|
    ensures t[i..j] == t[k..][i - k..j - k]
  {
  }

  /** What a modification with any located quote does to the file. */
  lemma {:induction false} ModificationKeepsBytesIff(raw: string, quote: string, body: string)
    requires QuoteSpan(ReadText(raw), quote).Some?
    ensures var t, s := ReadText(raw), QuoteSpan(ReadText(raw), quote).value;
      && (OthersSurvive(raw, s.start, s.end, StripNewlines(body), ApplyModification(t, t[s.start..s.end], body))
          <==> ReturnsInside(raw, s.start, s.end))
      && ('\n' !in quote ==> (ReturnsInside(raw, s.start, s.end) <==> '\r' !in raw))
  {
    hide OthersSurvive, ReturnsInside, ApplyModification, ReadText, QuoteSpan;
    var t := ReadText(raw);
    var s := QuoteSpan(t, quote).value;
    ModificationText(t, quote, body);
    assert t == t[..s.start] + t[s.start..s.end] + t[s.end..];
    OthersSurviveIff(raw, t[..s.start], t[s.start..s.end], t[s.end..], StripNewlines(body));
    if '\n' !in quote {
      RegionIsOneLine(t, quote);
      OneLineHoldsNoReturn(raw, s.start, s.end);
    }
  }
}
