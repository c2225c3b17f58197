/**
Reading the printed classification block back: a reader of the few YAML forms that the printer writes, and the round
trip.  The entries come back in the order they are documented to be printed in.
*/
module FrontMatterReading {
  import opened Text
  import opened Sorting
  import opened FrontMatter
  import opened FrontMatterLaws

  // ----- scalars -----

  /** The content of a double-quoted scalar whose opening quote was read, and what follows its closing quote. */
  function ReadQuoted(s: string): Option<(string, string)> {
    if s == "" || s == "\\" then None
    else if s[0] == '"' then Some(("", s[1..]))
    else
      var c, rest := if s[0] == '\\' then s[1] else s[0], if s[0] == '\\' then s[2..] else s[1..];
      match ReadQuoted(rest)
      case None => None
      case Some((content, after)) => Some(([c] + content, after))
  }

  function ReadScalar(s: string): Option<Scalar> {
    if s == "true" then Some(Bool(true))
    else if s == "false" then Some(Bool(false))
    else if s != "" && s[0] == '"' then
      match ReadQuoted(s[1..])
      case Some((content, "")) => Some(Str(content))
      case _ => None
    else if IsNumberText(s) then Some(Number(s))
    else None
  }

  lemma {:induction false} QuotedBack(s: string, after: string)
    ensures ReadQuoted(Escape(s) + "\"" + after) == Some((s, after))
  {
    var t := Escape(s) + "\"" + after;
    if s == "" {
      assert t == "\"" + after;
    } else {
      var rest := Escape(s[1..]) + "\"" + after;
      QuotedBack(s[1..], after);
      if s[0] == '\\' || s[0] == '"' {
        assert t == ['\\', s[0]] + rest;
      } else {
        assert t == [s[0]] + rest;
      }
      assert s == [s[0]] + s[1..];
    }
  }

  lemma {:induction false} NumberBack(repr: NumberText)
    ensures repr != "true" && repr != "false" && repr[0] != '"' && repr[0] != '['
  {
    assert repr[0] in repr;
    assert "true"[0] == 't' && "false"[2] == 'l';
    assert repr == "false" ==> 'l' in repr;
  }

  lemma {:induction false} ScalarBack(v: Scalar)
    ensures ReadScalar(YamlScalar(v)) == Some(v)
    ensures YamlScalar(v) != "" && YamlScalar(v)[0] != '['
  {
    var y := YamlScalar(v);
    match v
    case Bool(_) =>
    case Number(repr) => NumberBack(repr);
    case Str(s) =>
      QuotedBack(s, "");
      assert y[0] == '"' && "true"[0] == 't' && "false"[0] == 'f';
      assert y[1..] == Escape(s) + "\"" + "";
  }

  // ----- lines -----

  predicate Starts(line: string, p: string) {
    |p| <= |line| && line[..|p|] == p
  }

  /** What stands before the first colon, and what follows it. */
  function ReadKey(s: string): Option<(string, string)> {
    if s == "" then None
    else if s[0] == ':' then Some(("", s[1..]))
    else
      match ReadKey(s[1..])
      case None => None
      case Some((key, rest)) => Some(([s[0]] + key, rest))
  }

  lemma {:induction false} KeyBack(key: string, rest: string)
    requires ':' !in key
    ensures ReadKey(key + ":" + rest) == Some((key, rest))
  {
    var t := key + ":" + rest;
    if key == "" {
      assert t == ":" + rest;
    } else {
      assert t[1..] == key[1..] + ":" + rest && key == [key[0]] + key[1..];
      KeyBack(key[1..], rest);
    }
  }

  /** How many lines at the front are four blanks deep. */
  function Deeper(lines: seq<string>): (n: nat)
    ensures n <= |lines|
  {
    if lines == [] || !Starts(lines[0], "    ") then 0 else 1 + Deeper(lines[1..])
  }

  ghost predicate AllDeep(lines: seq<string>) {
    forall k :: 0 <= k < |lines| ==> Starts(lines[k], "    ")
  }

  lemma {:induction false} DeeperIs(sub: seq<string>, rest: seq<string>)
    requires AllDeep(sub) && (rest != [] ==> !Starts(rest[0], "    "))
    ensures Deeper(sub + rest) == |sub|
  {
    hide Starts;
    if sub == [] {
      assert sub + rest == rest;
    } else {
      assert (sub + rest)[0] == sub[0] && (sub + rest)[1..] == sub[1..] + rest;
      DeeperIs(sub[1..], rest);
    }
  }

  function ReadItems(lines: seq<string>): Option<seq<Scalar>> {
    if lines == [] then Some([])
    else if !Starts(lines[0], "    - ") then None
    else
      match (ReadScalar(lines[0][6..]), ReadItems(lines[1..]))
      case (Some(v), Some(rest)) => Some([v] + rest)
      case _ => None
  }

  function ReadDict(lines: seq<string>): Option<map<string, Scalar>> {
    if lines == [] then Some(map[])
    else if !Starts(lines[0], "    ") then None
    else
      match (ReadDictLine(lines[0][4..]), ReadDict(lines[1..]))
      case (Some((key, v)), Some(rest)) => Some(rest[key := v])
      case _ => None
  }

  function ReadDictLine(s: string): Option<(string, Scalar)> {
    match ReadKey(s)
    case None => None
    case Some((key, value)) =>
      if !Starts(value, " ") then None
      else
        match ReadScalar(value[1..])
        case None => None
        case Some(v) => Some((key, v))
  }

  /** The value of a key, from the rest of its line and the deeper lines below it.  A key with neither reads as null,
      which is no value. */
  function ReadValue(rest: string, sub: seq<string>): Option<Value> {
    if rest == " []" then if sub == [] then Some(List([])) else None
    else if rest != "" then
      if sub != [] || rest[0] != ' ' then None
      else
        match ReadScalar(rest[1..])
        case None => None
        case Some(v) => Some(One(v))
    else if sub == [] then None
    else if Starts(sub[0], "    - ") then
      match ReadItems(sub)
      case None => None
      case Some(items) => Some(List(items))
    else
      match ReadDict(sub)
      case None => None
      case Some(entries) => Some(Dict(entries))
  }

  /** The entries of a block, in order. */
  function ReadEntries(lines: seq<string>): Option<seq<(string, Value)>>
    decreases |lines|
  {
    if lines == [] then Some([])
    else if !Starts(lines[0], "  ") then None
    else
      match ReadKey(lines[0][2..])
      case None => None
      case Some((key, rest)) =>
        var n := Deeper(lines[1..]);
        match (ReadValue(rest, lines[1..][..n]), ReadEntries(lines[1..][n..]))
        case (Some(v), Some(more)) => Some([(key, v)] + more)
        case _ => None
  }

  function ReadBlock(name: string, lines: seq<string>): Option<seq<(string, Value)>> {
    if lines == [] || lines[0] != name + ":" then None else ReadEntries(lines[1..])
  }

  // ----- what was printed comes back -----

  /** A key without a colon that starts with neither a blank nor a dash. */
  predicate PlainKey(key: string) {
    ':' !in key && (key == "" || (key[0] != ' ' && key[0] != '-'))
  }

  /** All keys are plain. */
  ghost predicate PlainKeys(c: map<string, Value>) {
    forall k :: k in c ==> PlainKey(k) && (c[k].Dict? ==> forall x :: x in c[k].entries ==> PlainKey(x))
  }

  lemma {:induction false} ItemsBack(items: seq<Scalar>)
    ensures AllDeep(ItemLines(items)) && ReadItems(ItemLines(items)) == Some(items)
    ensures items != [] ==> Starts(ItemLines(items)[0], "    - ")
  {
    if items != [] {
      ScalarBack(items[0]);
      ItemsBack(items[1..]);
      var line := "    - " + YamlScalar(items[0]);
      DashIsDeep(YamlScalar(items[0]));
      assert ItemLines(items) == [line] + ItemLines(items[1..]) && line[6..] == YamlScalar(items[0]);
      assert items == [items[0]] + items[1..];
    }
  }

  lemma {:induction false} DashIsDeep(rest: string)
    ensures Starts("    - " + rest, "    ")
  {
    assert ("    - " + rest)[..4] == "    ";
  }

  lemma {:induction false} DictLineBack(key: string, v: Scalar)
    requires PlainKey(key)
    ensures var line := "    " + key + ": " + YamlScalar(v);
      && Starts(line, "    ") && !Starts(line, "    - ")
      && ReadDictLine(line[4..]) == Some((key, v))
  {
    hide YamlScalar, ReadScalar, ReadKey;
    var y := YamlScalar(v);
    var line := "    " + key + ": " + y;
    ScalarBack(v);
    KeyBack(key, " " + y);
    assert line[4..] == key + ":" + (" " + y) && (" " + y)[1..] == y;
    BlankThen(y);
    DeepKey(key, ": " + y);
    assert line == "    " + key + (": " + y);
  }

  lemma {:induction false} DeepKey(key: string, rest: string)
    requires PlainKey(key) && rest != "" && rest[0] == ':'
    ensures Starts("    " + key + rest, "    ") && !Starts("    " + key + rest, "    - ")
  {
    var line := "    " + key + rest;
    assert line[4] == if key == "" then ':' else key[0];
    assert |line| >= 6 ==> line[..6][4] == line[4];
  }

  lemma {:induction false} DictBack(keys: seq<string>, entries: map<string, Scalar>)
    requires forall k :: k in keys ==> k in entries && PlainKey(k)
    ensures AllDeep(DictLines(keys, entries))
    ensures keys != [] ==> !Starts(DictLines(keys, entries)[0], "    - ")
    ensures ReadDict(DictLines(keys, entries)) == Some(map k | k in keys :: entries[k])
  {
    hide YamlScalar, PlainKey, Starts, ReadDictLine;
    if keys == [] {
      assert (map k | k in keys :: entries[k]) == map[];
    } else {
      var k, rest := keys[0], keys[1..];
      var v := entries[k];
      DictLineBack(k, v);
      DictBack(rest, entries);
      assert DictLines(keys, entries) == ["    " + k + ": " + YamlScalar(v)] + DictLines(rest, entries);
      assert forall x :: x in keys <==> x == k || x in rest;
      assert (map x | x in rest :: entries[x])[k := v] == map x | x in keys :: entries[x];
    }
  }

  lemma {:induction false} BlankThen(y: string)
    ensures Starts(" " + y, " ")
  {
  }

  /** The first line of an entry, as key and rest, and the lines below it. */
  lemma {:induction false} EntryBack(key: string, v: Value)
    requires PlainKey(key) && (v.Dict? ==> forall x :: x in v.entries ==> PlainKey(x))
    ensures var lines := EntryLines(key, v);
      && lines != [] && Starts(lines[0], "  ") && !Starts(lines[0], "    ") && AllDeep(lines[1..])
      && ReadKey(lines[0][2..]).Some? && ReadKey(lines[0][2..]).value.0 == key
      && ReadValue(ReadKey(lines[0][2..]).value.1, lines[1..]) == if v == Dict(map[]) then None else Some(v)
  {
    hide Starts, ReadScalar, ReadKey, YamlScalar, ReadItems, ReadDict;
    match v
    case One(scalar) =>
      var y := YamlScalar(scalar);
      EntryLine(key, " " + y);
      ScalarBack(scalar);
      assert "  " + key + ": " + y == "  " + key + ":" + (" " + y);
      assert (" " + y)[1..] == y && " []"[1] == '[' && (" " + y)[1] == y[0];
    case Dict(entries) =>
      var keys := Sorted(entries.Keys);
      EntryLine(key, "");
      assert "  " + key + ":" == "  " + key + ":" + "";
      DictBack(keys, entries);
      assert EntryLines(key, v)[1..] == DictLines(keys, entries);
      assert (map k | k in keys :: entries[k]) == entries;
      EmptyKeys(keys, entries);
    case List(items) =>
      if items == [] {
        EntryLine(key, " []");
        assert "  " + key + ": []" == "  " + key + ":" + " []";
      } else {
        EntryLine(key, "");
        assert "  " + key + ":" == "  " + key + ":" + "";
        ItemsBack(items);
        assert EntryLines(key, v)[1..] == ItemLines(items);
      }
  }

  lemma {:induction false} EmptyKeys(keys: seq<string>, entries: map<string, Scalar>)
    requires forall k :: k in keys <==> k in entries
    ensures DictLines(keys, entries) == [] <==> entries == map[]
  {
    if keys != [] { assert keys[0] in keys; }
  }

  lemma {:induction false} EntryLine(key: string, rest: string)
    requires PlainKey(key)
    ensures var line := "  " + key + ":" + rest;
      Starts(line, "  ") && !Starts(line, "    ") && ReadKey(line[2..]) == Some((key, rest))
  {
    var line := "  " + key + ":" + rest;
    KeyBack(key, rest);
    assert line[2..] == key + ":" + rest;
    assert line[2] == if key == "" then ':' else key[0];
    assert |line| >= 4 ==> line[..4][2] == line[2];
  }

  function Pairs(keys: seq<string>, c: map<string, Value>): seq<(string, Value)>
    requires forall k :: k in keys ==> k in c
  {
    if keys == [] then [] else [(keys[0], c[keys[0]])] + Pairs(keys[1..], c)
  }

  lemma {:induction false} EntriesBack(keys: seq<string>, c: map<string, Value>)
    requires PlainKeys(c) && forall k :: k in keys ==> k in c
    ensures ReadEntries(BlockLines(keys, c))
      == if exists k :: k in keys && c[k] == Dict(map[]) then None else Some(Pairs(keys, c))
    ensures keys != [] ==> BlockLines(keys, c) != [] && !Starts(BlockLines(keys, c)[0], "    ")
  {
    hide Starts, ReadKey, ReadValue, EntryLines, PlainKeys, PlainKey;
    if keys != [] {
      var k, rest := keys[0], keys[1..];
      PlainEntry(c, k);
      EntryBack(k, c[k]);
      EntriesBack(rest, c);
      var one, more := EntryLines(k, c[k]), BlockLines(rest, c);
      assert BlockLines(keys, c) == one + more;
      assert rest == [] ==> more == [];
      DeeperIs(one[1..], more);
      var lines := one + more;
      assert lines[0] == one[0] && lines[1..] == one[1..] + more;
      CutAt(lines[1..], one[1..], more);
      assert forall x :: x in keys <==> x == k || x in rest;
    }
  }

  lemma {:induction false} PlainEntry(c: map<string, Value>, k: string)
    requires PlainKeys(c) && k in c
    ensures PlainKey(k) && (c[k].Dict? ==> forall x :: x in c[k].entries ==> PlainKey(x))
  {
  }

  // ----- the order of the entries -----

  ghost predicate Distinct(order: seq<string>) {
    forall i, j :: 0 <= i < j < |order| ==> order[i] != order[j]
  }

  /** Key `a` is printed before key `b`: known keys in their order first, then the others by their text. */
  ghost predicate PrintedBefore(order: seq<string>, a: string, b: string) {
    || (a in order && b !in order)
    || (a !in order && b !in order && Less(a, b))
    || exists i, j :: 0 <= i < j < |order| && order[i] == a && order[j] == b
  }

  ghost predicate InPrintOrder(order: seq<string>, keys: seq<string>) {
    forall i, j :: 0 <= i < j < |keys| ==> PrintedBefore(order, keys[i], keys[j])
  }

  lemma {:induction false} KnownInOrder(order: seq<string>, c: map<string, Value>)
    requires Distinct(order)
    ensures forall k :: k in Known(order, c) <==> k in order && k in c
    ensures InPrintOrder(order, Known(order, c))
  {
    if order != [] {
      var first, rest := order[0], order[1..];
      assert Distinct(rest) && forall k :: k in order <==> k == first || k in rest;
      KnownInOrder(rest, c);
      var keys, tail := Known(order, c), Known(rest, c);
      forall i, j | 0 <= i < j < |keys| ensures PrintedBefore(order, keys[i], keys[j]) {
        var d := |keys| - |tail|;
        assert keys[j] == tail[j - d] && keys[j] in tail;
        if i < d {
          FirstPrintedFirst(order, keys[j]);
        } else {
          assert tail[i - d] in tail && PrintedBefore(rest, tail[i - d], tail[j - d]);
          PrintedBeforeInTail(order, tail[i - d], tail[j - d]);
        }
      }
    }
  }

  lemma {:induction false} FirstPrintedFirst(order: seq<string>, b: string)
    requires order != [] && b in order[1..]
    ensures PrintedBefore(order, order[0], b)
  {
    var j :| 0 <= j < |order[1..]| && order[1..][j] == b;
    assert order[j + 1] == b;
  }

  lemma {:induction false} PrintedBeforeInTail(order: seq<string>, a: string, b: string)
    requires order != [] && a in order[1..] && b in order[1..] && PrintedBefore(order[1..], a, b)
    ensures PrintedBefore(order, a, b)
  {
    var i, j :| 0 <= i < j < |order[1..]| && order[1..][i] == a && order[1..][j] == b;
    assert order[i + 1] == a && order[j + 1] == b;
  }

  lemma {:induction false} KeysInOrder(order: seq<string>, c: map<string, Value>)
    requires Distinct(order)
    ensures forall k :: k in Keys(order, c) <==> k in c
    ensures InPrintOrder(order, Keys(order, c))
  {
    hide Known;
    KnownInOrder(order, c);
    var known, others := Known(order, c), Sorted(c.Keys - set k | k in order);
    var keys := Keys(order, c);
    assert keys == known + others;
    assert forall k :: k in keys <==> k in known || k in others;
    forall i, j | 0 <= i < j < |keys| ensures PrintedBefore(order, keys[i], keys[j]) {
      if i < |known| {
        assert keys[i] in known;
        if j < |known| { assert PrintedBefore(order, known[i], known[j]); } else { assert keys[j] in others; }
      } else {
        assert keys[i] in others && keys[j] in others;
        assert Less(others[i - |known|], others[j - |known|]);
      }
    }
  }

  /** `entries` lists what the classification holds, each key once, in the order of printing. */
  ghost predicate ListsAll(order: seq<string>, c: map<string, Value>, entries: seq<(string, Value)>) {
    && (forall k :: k in c <==> exists i :: 0 <= i < |entries| && entries[i].0 == k)
    && (forall i :: 0 <= i < |entries| ==> entries[i].0 in c && entries[i].1 == c[entries[i].0])
    && forall i, j :: 0 <= i < j < |entries| ==> PrintedBefore(order, entries[i].0, entries[j].0)
  }

  lemma {:induction false} PairsAre(keys: seq<string>, c: map<string, Value>)
    requires forall k :: k in keys ==> k in c
    ensures |Pairs(keys, c)| == |keys|
    ensures forall i :: 0 <= i < |keys| ==> Pairs(keys, c)[i] == (keys[i], c[keys[i]])
  {
    if keys != [] { PairsAre(keys[1..], c); }
  }

  /** The printed block reads back as what was printed, entry by entry in the order of printing, exactly when no entry
      is an empty mapping: that one prints as a key without a value. */
  lemma {:induction false} BlockReadsBack(name: string, order: seq<string>, c: map<string, Value>)
    requires Distinct(order) && PlainKeys(c)
    ensures var r := ReadBlock(name, EmitLines(name, order, c));
      && (r.Some? <==> forall k :: k in c ==> c[k] != Dict(map[]))
      && (r.Some? ==> ListsAll(order, c, r.value))
  {
    hide ReadEntries, BlockLines, PlainKeys, Keys, PrintedBefore;
    var keys := Keys(order, c);
    KeysInOrder(order, c);
    EntriesBack(keys, c);
    PairsAre(keys, c);
    assert EmitLines(name, order, c)[1..] == BlockLines(keys, c);
    var r := ReadBlock(name, EmitLines(name, order, c));
    if r.Some? {
      forall k ensures k in c <==> exists i :: 0 <= i < |r.value| && r.value[i].0 == k {
        assert k in c <==> k in keys;
        if i :| 0 <= i < |keys| && keys[i] == k { assert r.value[i].0 == k; }
      }
      forall i | 0 <= i < |r.value| ensures r.value[i].0 in c && r.value[i].1 == c[r.value[i].0] {
        assert keys[i] in keys;
      }
    }
  }

  // ----- in the merged document -----

  lemma {:induction false} KeyOrderIsDistinct()
    ensures Distinct(KEY_ORDER)
  {
  }

  lemma {:induction false} ScalarIsOneLine(v: Scalar)
    requires PlainScalar(v)
    ensures '\n' !in YamlScalar(v)
  {
    if v.Str? { EscapeKeepsLine(v.s); }
  }

  lemma {:induction false} DictLinesAreLines(keys: seq<string>, entries: map<string, Scalar>)
    requires forall k :: k in keys ==> k in entries && '\n' !in k && PlainScalar(entries[k])
    ensures forall l :: l in DictLines(keys, entries) ==> '\n' !in l
  {
    hide YamlScalar;
    if keys != [] {
      ScalarIsOneLine(entries[keys[0]]);
      DictLinesAreLines(keys[1..], entries);
    }
  }

  lemma {:induction false} ItemLinesAreLines(items: seq<Scalar>)
    requires forall x :: x in items ==> PlainScalar(x)
    ensures forall l :: l in ItemLines(items) ==> '\n' !in l
  {
    hide YamlScalar;
    if items != [] {
      ScalarIsOneLine(items[0]);
      ItemLinesAreLines(items[1..]);
    }
  }

  lemma {:induction false} BlockLinesAreLines(keys: seq<string>, c: map<string, Value>)
    requires PlainBlock(c) && forall k :: k in keys ==> k in c
    ensures forall l :: l in BlockLines(keys, c) ==> '\n' !in l
  {
    hide YamlScalar;
    if keys != [] {
      var v := c[keys[0]];
      match v {
        case One(scalar) => ScalarIsOneLine(scalar);
        case Dict(entries) => DictLinesAreLines(Sorted(entries.Keys), entries);
        case List(items) => ItemLinesAreLines(items);
      }
      BlockLinesAreLines(keys[1..], c);
    }
  }

  /** After a merge the header is the old one without its block, and the new block, which reads back as the
      classification merged in. */
  lemma {:induction false} MergedReadsBack(text: string, c: map<string, Value>)
    requires PlainBlock(c) && PlainKeys(c) && forall k :: k in c ==> c[k] != Dict(map[])
    ensures var prior, header := Rest(NAME, text).0, SplitDoc(Merged(NAME, text, EmitLines(NAME, KEY_ORDER, c))).0;
      && prior <= header
      && ReadBlock(NAME, header[|prior|..]).Some?
      && ListsAll(KEY_ORDER, c, ReadBlock(NAME, header[|prior|..]).value)
  {
    hide PlainBlock, PlainKeys, Rest, Merged, SplitDoc, ReadBlock, ListsAll, Contained, BlockLines, Keys;
    var block := EmitLines(NAME, KEY_ORDER, c);
    var keys := Keys(KEY_ORDER, c);
    NameIsWord();
    PlainIsContained(NAME, KEY_ORDER, c);
    MergeKeepsTheRest(NAME, text, block);
    BlockLinesAreLines(keys, c);
    assert '\n' !in NAME + ":";
    PhysicalPlain(block);
    KeyOrderIsDistinct();
    BlockReadsBack(NAME, KEY_ORDER, c);
    var prior := Rest(NAME, text).0;
    CutAt(prior + block, prior, block);
  }
}
