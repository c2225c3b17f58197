/** The front-matter merge of `families.py`. */
module FrontMatter {
  import opened Text
  import opened Sorting

  // The classification block of a document's YAML header is replaced, everything else is kept.  Printing and
  // splitting undo each other exactly when no emitted value brings in a line of its own; then the last merge wins.

  /** The name of the merged block, and the order of its known keys. */
  const NAME := "classification"
  const KEY_ORDER: seq<string> :=
    ["family", "confidence", "alt_family", "reasoning", "uncertainty_factors", "modifiers", "confirmed_by",
     "classified_at", "taxonomy_version"]

  /** The characters of a number as Python prints it, `inf` and `nan` included. */
  predicate IsNumberChar(c: char) {
    '0' <= c <= '9' || c in "+-.einfa"
  }

  predicate IsNumberText(s: string) {
    s != "" && s[|s| - 1] != '-' && forall c :: c in s ==> IsNumberChar(c)
  }

  /** The text Python prints a number with. */
  type NumberText = s: string | IsNumberText(s) witness NumberWitness()

  function NumberWitness(): (s: string)
    ensures IsNumberText(s)
  {
    "0"
  }

  /** A scalar; a number comes with its text. */
  datatype Scalar = Bool(b: bool) | Number(repr: NumberText) | Str(s: string)
  datatype Value = One(scalar: Scalar) | Dict(entries: map<string, Scalar>) | List(items: seq<Scalar>)

  // ----- scalars -----

  /** Backslashes and quotes get a backslash in front. */
  function Escape(s: string): string {
    if s == "" then ""
    else (if s[0] == '\\' || s[0] == '"' then ['\\', s[0]] else [s[0]]) + Escape(s[1..])
  }

  /** What undoing the escapes makes of an escaped string; a YAML reader folds newlines besides. */
  function Unescape(s: string): string {
    if s == "" then ""
    else if s[0] == '\\' && |s| > 1 then [s[1]] + Unescape(s[2..])
    else [s[0]] + Unescape(s[1..])
  }

  /** A string value survives quoting. */
  lemma {:induction false} UnescapeEscape(s: string)
    ensures Unescape(Escape(s)) == s
  {
    if s != "" {
      var rest, e := Escape(s[1..]), Escape(s);
      UnescapeEscape(s[1..]);
      if s[0] == '\\' || s[0] == '"' {
        assert e[0] == '\\' && e[1] == s[0] && e[2..] == rest;
      } else {
        assert e[0] == s[0] && e[1..] == rest;
      }
      assert s == [s[0]] + s[1..];
    }
  }

  /** Escaping adds no quote without a backslash in front: the closing quote is the first bare one. */
  ghost predicate NoBareQuote(s: string) {
    if s == "" then true
    else if s[0] == '\\' then |s| > 1 && NoBareQuote(s[2..])
    else s[0] != '"' && NoBareQuote(s[1..])
  }

  lemma {:induction false} EscapedHasNoBareQuote(s: string)
    ensures NoBareQuote(Escape(s))
  {
    if s != "" {
      var rest, e := Escape(s[1..]), Escape(s);
      EscapedHasNoBareQuote(s[1..]);
      if s[0] == '\\' || s[0] == '"' {
        assert e[0] == '\\' && e[2..] == rest;
      } else {
        assert e[0] == s[0] && e[1..] == rest;
      }
    }
  }

  lemma {:induction false} EscapeKeepsLine(s: string)
    requires '\n' !in s
    ensures '\n' !in Escape(s)
  {
    if s != "" { EscapeKeepsLine(s[1..]); }
  }

  function YamlScalar(v: Scalar): string {
    match v
    case Bool(b) => if b then "true" else "false"
    case Number(repr) => repr
    case Str(s) => "\"" + Escape(s) + "\""
  }

  // ----- the emitted block -----

  function DictLines(keys: seq<string>, entries: map<string, Scalar>): seq<string> {
    if keys == [] then []
    else [ "    " + keys[0] + ": " + (if keys[0] in entries then YamlScalar(entries[keys[0]]) else "") ]
         + DictLines(keys[1..], entries)
  }

  function ItemLines(items: seq<Scalar>): seq<string> {
    if items == [] then [] else ["    - " + YamlScalar(items[0])] + ItemLines(items[1..])
  }

  ghost function EntryLines(key: string, v: Value): seq<string> {
    match v
    case One(scalar) => ["  " + key + ": " + YamlScalar(scalar)]
    case Dict(entries) => ["  " + key + ":"] + DictLines(Sorted(entries.Keys), entries)
    case List(items) => if items == [] then ["  " + key + ": []"] else ["  " + key + ":"] + ItemLines(items)
  }

  ghost function BlockLines(keys: seq<string>, c: map<string, Value>): seq<string>
    requires forall k :: k in keys ==> k in c
  {
    if keys == [] then [] else EntryLines(keys[0], c[keys[0]]) + BlockLines(keys[1..], c)
  }

  /** The known keys present, in their order. */
  function Known(order: seq<string>, c: map<string, Value>): (keys: seq<string>)
    ensures forall k :: k in keys ==> k in c && k in order
  {
    if order == [] then [] else (if order[0] in c then [order[0]] else []) + Known(order[1..], c)
  }

  ghost function Keys(order: seq<string>, c: map<string, Value>): (keys: seq<string>)
    ensures forall k :: k in keys ==> k in c
  {
    Known(order, c) + Sorted(c.Keys - set k | k in order)
  }

  /** The lines of the block: its name, then the known keys in order, then the others sorted. */
  ghost function EmitLines(name: string, order: seq<string>, c: map<string, Value>): seq<string> {
    [name + ":"] + BlockLines(Keys(order, c), c)
  }

  method EmitDict(entries: map<string, Scalar>) returns (lines: seq<string>)
    ensures lines == DictLines(Sorted(entries.Keys), entries)
  {
    hide YamlScalar;
    var order := Sort(entries.Keys);
    SortedIsUnique(order, Sorted(entries.Keys), entries.Keys);
    lines := [];
    for i := 0 to |order|
      invariant lines + DictLines(order[i..], entries) == DictLines(order, entries)
    {
      assert order[i] in order && order[i..][1..] == order[i + 1..];
      var line := "    " + order[i] + ": " + YamlScalar(entries[order[i]]);
      Assoc(lines, [line], DictLines(order[i + 1..], entries));
      lines := lines + [line];
    }
    assert order[|order|..] == [] && lines + [] == lines;
  }

  method EmitItems(items: seq<Scalar>) returns (lines: seq<string>)
    ensures lines == ItemLines(items)
  {
    lines := [];
    for i := 0 to |items|
      invariant lines + ItemLines(items[i..]) == ItemLines(items)
    {
      assert items[i..][1..] == items[i + 1..];
      var line := "    - " + YamlScalar(items[i]);
      Assoc(lines, [line], ItemLines(items[i + 1..]));
      lines := lines + [line];
    }
    assert items[|items|..] == [] && lines + [] == lines;
  }

  method EmitEntry(key: string, v: Value) returns (lines: seq<string>)
    ensures lines == EntryLines(key, v)
  {
    match v {
      case Dict(entries) =>
        var sub := EmitDict(entries);
        lines := ["  " + key + ":"] + sub;
      case List(items) =>
        if |items| == 0 {
          lines := ["  " + key + ": []"];
        } else {
          var sub := EmitItems(items);
          lines := ["  " + key + ":"] + sub;
        }
      case One(scalar) =>
        lines := ["  " + key + ": " + YamlScalar(scalar)];
    }
  }

  method EmitClassificationLines(name: string, order: seq<string>, c: map<string, Value>) returns (lines: seq<string>)
    ensures lines == EmitLines(name, order, c)
  {
    hide EntryLines, Known;
    var extra := Sort(c.Keys - set k | k in order);
    SortedIsUnique(extra, Sorted(c.Keys - set k | k in order), c.Keys - set k | k in order);
    var keys := Known(order, c) + extra;
    lines := [name + ":"];
    for i := 0 to |keys|
      invariant forall k :: k in keys[i..] ==> k in c
      invariant lines + BlockLines(keys[i..], c) == EmitLines(name, order, c)
    {
      assert keys[i] in keys && keys[i..][1..] == keys[i + 1..];
      var entry := EmitEntry(keys[i], c[keys[i]]);
      Assoc(lines, entry, BlockLines(keys[i + 1..], c));
      lines := lines + entry;
    }
    assert keys[|keys|..] == [] && lines + [] == lines;
  }

  // ----- splitting a document -----

  predicate IsFence(line: string) {
    Strip(line) == "---"
  }

  /** The first fence from line `i` on, or -1. */
  function FenceFrom(lines: seq<string>, i: nat): (k: int)
    requires i <= |lines|
    ensures k == -1 ==> forall j :: i <= j < |lines| ==> !IsFence(lines[j])
    ensures k != -1 ==> i <= k < |lines| && IsFence(lines[k]) && forall j :: i <= j < k ==> !IsFence(lines[j])
    decreases |lines| - i
  {
    if i == |lines| then -1 else if IsFence(lines[i]) then i else FenceFrom(lines, i + 1)
  }

  /** A document's header lines and body; without a terminated header the whole text is body. */
  function SplitDoc(text: string): (seq<string>, string) {
    var lines := Split(text);
    if !IsFence(lines[0]) then ([], text)
    else
      var k := FenceFrom(lines, 1);
      if k == -1 then ([], text) else (lines[1..k], Join(lines[k + 1..]))
  }

  /** The header stands between the first two lines that are fences, the first of them being the first line; a text
      without these is all body. */
  ghost predicate IsSplit(text: string, header: seq<string>, body: string) {
    var lines := Split(text);
    || (exists k :: 0 < k < |lines| && IsHeader(lines, k) && header == lines[1..k] && body == Join(lines[k + 1..]))
    || ((forall k :: 0 < k < |lines| ==> !IsHeader(lines, k)) && header == [] && body == text)
  }

  /** Lines 0 and `k` are the fences of the header. */
  ghost predicate IsHeader(lines: seq<string>, k: nat)
    requires k < |lines|
  {
    Strip(lines[0]) == Strip(lines[k]) == "---" && forall j :: 0 < j < k ==> Strip(lines[j]) != "---"
  }

  lemma {:induction false} SplitDocIs(text: string)
    ensures IsSplit(text, SplitDoc(text).0, SplitDoc(text).1)
  {
    hide Strip, Join, Split;
    var lines := Split(text);
    var k := FenceFrom(lines, 1);
    if IsFence(lines[0]) && k != -1 { assert IsHeader(lines, k); }
  }

  method SplitFrontMatter(text: string) returns (header: seq<string>, body: string)
    ensures (header, body) == SplitDoc(text) && IsSplit(text, header, body)
  {
    hide IsFence, IsSplit;
    SplitDocIs(text);
    var lines := Split(text);
    if !IsFence(lines[0]) { return [], text; }
    for idx := 1 to |lines|
      invariant FenceFrom(lines, 1) == FenceFrom(lines, idx)
    {
      if IsFence(lines[idx]) {
        return lines[1..idx], Join(lines[idx + 1..]);
      }
    }
    return [], text;
  }

  // ----- stripping the block -----

  /** The line opens the top-level block `name`. */
  predicate IsKeyLine(name: string, line: string) {
    && |name| <= |line| && line[..|name|] == name
    && var rest := TrimLeft(line[|name|..], IsSpace); rest != "" && rest[0] == ':'
  }

  /** A line opens the block when the name comes first, and then, white space aside, a colon. */
  lemma {:induction false} KeyLineIs(name: string, line: string)
    ensures IsKeyLine(name, line)
      <==> exists n: nat :: |name| <= n < |line| && line[..|name|] == name && line[n] == ':'
             && forall k :: |name| <= k < n ==> IsSpace(line[k])
  {
    if |name| <= |line| && line[..|name|] == name {
      var tail := line[|name|..];
      var rest := TrimLeft(tail, IsSpace);
      TrimLeftCuts(tail, IsSpace);
      assert forall k :: |name| <= k < |line| ==> line[k] == tail[k - |name|];
      if rest != "" { assert rest[0] == line[|line| - |rest|]; }
    }
  }

  predicate Indented(line: string) {
    line != "" && (line[0] == ' ' || line[0] == '\t')
  }

  /** A line goes when it opens the block, or is indented and follows a line that goes. */
  predicate Goes(name: string, lines: seq<string>, i: nat)
    requires i < |lines|
  {
    IsKeyLine(name, lines[i]) || (Indented(lines[i]) && i > 0 && Goes(name, lines, i - 1))
  }

  /** Of the first `n` lines those that stay, in order. */
  function Staying(name: string, lines: seq<string>, n: nat): seq<string>
    requires n <= |lines|
  {
    if n == 0 then []
    else Staying(name, lines, n - 1) + if Goes(name, lines, n - 1) then [] else [lines[n - 1]]
  }

  function StripKey(name: string, lines: seq<string>): seq<string> {
    Staying(name, lines, |lines|)
  }

  method StripTopLevelKey(name: string, lines: seq<string>) returns (kept: seq<string>)
    requires name != "" && !IsSpace(name[0])
    ensures kept == StripKey(name, lines)
  {
    hide IsKeyLine, Indented;
    kept := [];
    var idx := 0;
    while idx < |lines|
      invariant 0 <= idx <= |lines| && kept == Staying(name, lines, idx)
      invariant 0 < idx < |lines| && Goes(name, lines, idx - 1) ==> !Indented(lines[idx])
    {
      if IsKeyLine(name, lines[idx]) {
        idx := idx + 1;
        assert kept + [] == kept;
        while idx < |lines| && Indented(lines[idx])
          invariant 0 < idx <= |lines| && Goes(name, lines, idx - 1) && kept == Staying(name, lines, idx)
        {
          idx := idx + 1;
          assert kept + [] == kept;
        }
        continue;
      }
      kept := kept + [lines[idx]];
      idx := idx + 1;
    }
  }

  // ----- merging -----

  function Assemble(header: seq<string>, body: string): string {
    "---\n" + Join(header) + "\n---\n" + body
  }

  /** What merging the lines `block` into a document gives. */
  function Merged(name: string, text: string, block: seq<string>): string {
    var (header, body) := SplitDoc(text);
    Assemble(StripKey(name, header) + block, body)
  }

  method MergeFrontMatter(text: string, c: map<string, Value>) returns (r: string)
    ensures r == Merged(NAME, text, EmitLines(NAME, KEY_ORDER, c))
  {
    NameIsPlain();
    r := Merge(NAME, KEY_ORDER, text, c);
  }

  lemma {:induction false} NameIsPlain()
    ensures NAME != "" && !IsSpace(NAME[0])
  {
  }

  method Merge(name: string, order: seq<string>, text: string, c: map<string, Value>) returns (r: string)
    requires name != "" && !IsSpace(name[0])
    ensures r == Merged(name, text, EmitLines(name, order, c))
  {
    hide SplitDoc, EmitLines, StripKey;
    var header, body := SplitFrontMatter(text);
    header := StripTopLevelKey(name, header);
    var lines := EmitClassificationLines(name, order, c);
    header := header + lines;
    r := "---\n" + Join(header) + "\n---\n" + body;
  }
}
