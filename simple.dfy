/** `EncodeSimple`: a two-level string map becomes one block per section, in
    ascending section-name order; a block is the `[name]` header (left out
    for the default section), the section's `key = value` lines in ascending
    key order, and an empty line. */
module SimpleMode {
  import opened Keys
  import opened Text
  import opened Sink

  // ---- text pieces laid out in ascending key order ----

  /** The values of `parts` concatenated in ascending order of their keys:
      the piece of the least key, then those of the others. */
  ghost function InKeyOrder(parts: map<string, string>): string
    decreases |parts|
  {
    if |parts| == 0 then ""
    else
      var k := Min(parts.Keys);
      parts[k] + InKeyOrder(parts - {k})
  }

  /** The pieces of `parts` for the keys in `keys`, in that order (nothing
      for a key `parts` lacks). */
  function Pieces(parts: map<string, string>, keys: seq<string>): seq<string> {
    seq(|keys|, i requires 0 <= i < |keys| => if keys[i] in parts then parts[keys[i]] else "")
  }

  lemma PiecesAppend(parts: map<string, string>, a: seq<string>, b: seq<string>)
    ensures Join(Pieces(parts, a + b)) == Join(Pieces(parts, a)) + Join(Pieces(parts, b))
  {
    assert Pieces(parts, a + b) == Pieces(parts, a) + Pieces(parts, b);
    JoinAppend(Pieces(parts, a), Pieces(parts, b));
  }

  /** Appending the piece of the next key to text that already ends with the
      pieces so far. */
  lemma PiecesStep(parts: map<string, string>, keys: seq<string>, i: int, written: string)
    requires 0 <= i < |keys| && keys[i] in parts
    ensures written + Join(Pieces(parts, keys[..i + 1]))
            == written + Join(Pieces(parts, keys[..i])) + parts[keys[i]]
  {
    assert keys[..i + 1] == keys[..i] + [keys[i]];
    assert Pieces(parts, [keys[i]]) == [parts[keys[i]]];
    PiecesAppend(parts, keys[..i], [keys[i]]);
  }

  /** Keys outside `keys` do not matter to the pieces for `keys`. */
  lemma PiecesAgree(p1: map<string, string>, p2: map<string, string>, keys: seq<string>)
    requires forall k :: k in keys ==> k in p1 && k in p2 && p1[k] == p2[k]
    ensures Pieces(p1, keys) == Pieces(p2, keys)
  {
  }

  /** The pieces of the keys after the least one are those of the map
      without it. */
  lemma PiecesAfterLeast(parts: map<string, string>, k: string, tail: seq<string>)
    requires tail == SortedKeys((parts - {k}).Keys)
    ensures Pieces(parts, tail) == Pieces(parts - {k}, tail)
  {
    forall j | j in tail ensures j in parts && j in parts - {k} && parts[j] == (parts - {k})[j] {
      SortedKeysMembers((parts - {k}).Keys, j);
    }
    PiecesAgree(parts, parts - {k}, tail);
  }

  lemma PiecesCons(parts: map<string, string>, k: string, tail: seq<string>)
    requires k in parts
    ensures Join(Pieces(parts, [k] + tail)) == parts[k] + Join(Pieces(parts, tail))
  {
    assert Pieces(parts, [k]) == [parts[k]];
    JoinOne(parts[k]);
    PiecesAppend(parts, [k], tail);
  }

  /** Writing the pieces in `sort.Strings` order of the keys gives
      InKeyOrder. */
  lemma {:induction false} InKeyOrderSorted(parts: map<string, string>)
    ensures InKeyOrder(parts) == Join(Pieces(parts, SortedKeys(parts.Keys)))
    decreases |parts|
  {
    if |parts| == 0 {
      assert parts.Keys == {};
    } else {
      var k := Min(parts.Keys);
      var rest := parts - {k};
      assert rest.Keys == parts.Keys - {k};
      var tail := SortedKeys(rest.Keys);
      InKeyOrderSorted(rest);
      PiecesAfterLeast(parts, k, tail);
      PiecesCons(parts, k, tail);
    }
  }

  /** When every key of `p1` is below every key of `p2`, the text of
      `p1 + p2` is that of `p1` followed by that of `p2`. */
  lemma InKeyOrderSplit(p1: map<string, string>, p2: map<string, string>)
    requires Below(p1, p2)
    ensures InKeyOrder(p1 + p2) == InKeyOrder(p1) + InKeyOrder(p2)
  {
    var both := p1 + p2;
    SortedUnion(p1, p2);
    var s1, s2 := SortedKeys(p1.Keys), SortedKeys(p2.Keys);
    PiecesAppend(both, s1, s2);
    PiecesAgree(both, p1, s1);
    PiecesAgree(both, p2, s2);
    InKeyOrderSorted(both);
    InKeyOrderSorted(p1);
    InKeyOrderSorted(p2);
  }

  lemma InKeyOrderSingle(k: string, piece: string)
    ensures InKeyOrder(map[k := piece]) == piece
  {
    var parts := map[k := piece];
    assert parts.Keys == {k};
    assert |parts - {k}| == 0;
  }

  // ---- the lines and blocks of the output ----

  /** The `key = value` line of every key of a section. */
  function LinesOf(items: map<string, string>): map<string, string> {
    MapValues(items, KeyLine)
  }

  /** The `key = value` lines of a section, keys sorted. */
  ghost function KeyText(items: map<string, string>): string {
    InKeyOrder(LinesOf(items))
  }

  /** The block written for section `name` holding `items`. */
  ghost function SectionBlock(name: string, items: map<string, string>, def: string): string {
    if name != def then Header(name) + KeyText(items) + "\n"
    else KeyText(items) + "\n"
  }

  ghost function BlockOf(def: string): (string, map<string, string>) -> string {
    (name, items) => SectionBlock(name, items, def)
  }

  /** The block of every section. */
  ghost function Blocks(data: map<string, map<string, string>>, def: string): map<string, string> {
    MapValues(data, BlockOf(def))
  }

  /** The whole output: the section blocks, names sorted. */
  ghost function SimpleDoc(data: map<string, map<string, string>>, def: string): string {
    InKeyOrder(Blocks(data, def))
  }

  // ---- the encoder ----

  /** The inner loop of `EncodeSimple`: the sorted keys of one section, one
      `key = value` line each. */
  method WriteKeyLines(items: map<string, string>, buf: Buffer)
    modifies buf
    ensures buf.contents == old(buf.contents) + KeyText(items)
  {
    var keys := OrderedKeys(items);
    ghost var lines := LinesOf(items);
    for i := 0 to |keys|
      invariant buf.contents == old(buf.contents) + Join(Pieces(lines, keys[..i]))
    {
      var key := keys[i];
      SortedKeysMembers(items.Keys, key);
      PiecesStep(lines, keys, i, old(buf.contents));
      buf.WriteString(KeyLine(key, items[key]));
    }
    assert keys[..|keys|] == keys;
    assert lines.Keys == items.Keys;
    InKeyOrderSorted(lines);
  }

  /** One iteration of the outer loop: header unless it is the default
      section, the key lines, then the terminating empty line. */
  method WriteSection(name: string, items: map<string, string>, def: string, buf: Buffer)
    modifies buf
    ensures buf.contents == old(buf.contents) + SectionBlock(name, items, def)
  {
    if name != def {
      buf.WriteString(Header(name));
    }
    WriteKeyLines(items, buf);
    buf.WriteString("\n");
    if name != def {
      assert old(buf.contents) + (Header(name) + KeyText(items) + "\n") == old(buf.contents) + Header(name) + KeyText(items) + "\n";
    } else {
      assert old(buf.contents) + (KeyText(items) + "\n") == old(buf.contents) + KeyText(items) + "\n";
    }
  }

  /** The blocks of the sections named in `names`, in that order. */
  ghost function SectionBlocks(data: map<string, map<string, string>>, def: string, names: seq<string>): seq<string> {
    seq(|names|, i requires 0 <= i < |names| => if names[i] in data then SectionBlock(names[i], data[names[i]], def) else "")
  }

  lemma SectionBlocksStep(data: map<string, map<string, string>>, def: string, names: seq<string>, i: int, written: string)
    requires 0 <= i < |names| && names[i] in data
    ensures written + Join(SectionBlocks(data, def, names[..i + 1]))
            == written + Join(SectionBlocks(data, def, names[..i])) + SectionBlock(names[i], data[names[i]], def)
  {
    var init := SectionBlocks(data, def, names[..i]);
    assert SectionBlocks(data, def, names[..i + 1]) == init + [SectionBlock(names[i], data[names[i]], def)];
    JoinAppend(init, [SectionBlock(names[i], data[names[i]], def)]);
    JoinOne(SectionBlock(names[i], data[names[i]], def));
  }

  /** The blocks written in `sort.Strings` order of the section names make up
      the whole output. */
  lemma SortedBlocks(data: map<string, map<string, string>>, def: string, names: seq<string>)
    requires names == SortedKeys(data.Keys)
    ensures Join(SectionBlocks(data, def, names)) == SimpleDoc(data, def)
  {
    var blocks := Blocks(data, def);
    assert SectionBlocks(data, def, names) == Pieces(blocks, names);
    assert blocks.Keys == data.Keys;
    InKeyOrderSorted(blocks);
  }

  /** The outer loop of `EncodeSimple`: the blocks of the sections named in
      `names`, in that order. */
  method WriteSections(data: map<string, map<string, string>>, def: string, names: seq<string>, buf: Buffer)
    requires forall n :: n in names ==> n in data
    modifies buf
    ensures buf.contents == old(buf.contents) + Join(SectionBlocks(data, def, names))
  {
    for i := 0 to |names|
      invariant buf.contents == old(buf.contents) + Join(SectionBlocks(data, def, names[..i]))
    {
      var section := names[i];
      SectionBlocksStep(data, def, names, i, old(buf.contents));
      WriteSection(section, data[section], def, buf);
    }
    assert names[..|names|] == names;
  }

  /** `EncodeSimple(data, defSection...)`. */
  method EncodeSimple(data: map<string, map<string, string>>, defSection: seq<string>) returns (out: string)
    ensures out == SimpleDoc(data, DefaultSectionName(defSection))
  {
    if |data| == 0 {
      SimpleEmpty(data, DefaultSectionName(defSection));
      return [];
    }
    var defSecName := DefaultSectionName(defSection);
    var buf := new Buffer();
    var orderedSections := OrderedKeys(data);
    forall n | n in orderedSections ensures n in data {
      SortedKeysMembers(data.Keys, n);
    }
    WriteSections(data, defSecName, orderedSections, buf);
    SortedBlocks(data, defSecName, orderedSections);
    out := buf.String();
  }

  // ---- properties of the simple-mode output ----

  /** An empty map encodes to no text at all. */
  lemma SimpleEmpty(data: map<string, map<string, string>>, def: string)
    requires |data| == 0
    ensures SimpleDoc(data, def) == []
  {
    assert data.Keys == {};
    assert Blocks(data, def).Keys == {};
  }

  /** Keys sorted: when every key of `i1` is below every key of `i2`, the
      lines of `i1 + i2` are those of `i1` followed by those of `i2`. */
  lemma KeyTextSplit(i1: map<string, string>, i2: map<string, string>)
    requires Below(i1, i2)
    ensures KeyText(i1 + i2) == KeyText(i1) + KeyText(i2)
  {
    MapValuesUnion(i1, i2, KeyLine);
    InKeyOrderSplit(LinesOf(i1), LinesOf(i2));
  }

  /** A section with a single key writes exactly one `key = value` line. */
  lemma KeyTextSingle(k: string, v: string)
    ensures KeyText(map[k := v]) == KeyLine(k, v)
  {
    assert LinesOf(map[k := v]) == map[k := KeyLine(k, v)];
    InKeyOrderSingle(k, KeyLine(k, v));
  }

  /** Sections sorted: when every name in `d1` is below every name in `d2`,
      the text of `d1 + d2` is that of `d1` followed by that of `d2`. */
  lemma SimpleSplit(d1: map<string, map<string, string>>, d2: map<string, map<string, string>>, def: string)
    requires Below(d1, d2)
    ensures SimpleDoc(d1 + d2, def) == SimpleDoc(d1, def) + SimpleDoc(d2, def)
  {
    MapValuesUnion(d1, d2, BlockOf(def));
    InKeyOrderSplit(Blocks(d1, def), Blocks(d2, def));
  }

  /** A single section: its header unless it is the default section, its
      lines, and an empty line. */
  lemma SimpleSingle(name: string, items: map<string, string>, def: string)
    ensures SimpleDoc(map[name := items], def)
            == if name != def then Header(name) + KeyText(items) + "\n" else KeyText(items) + "\n"
  {
    assert Blocks(map[name := items], def) == map[name := SectionBlock(name, items, def)];
    InKeyOrderSingle(name, SectionBlock(name, items, def));
  }

  /** Two keys: the line of the lesser one first. */
  lemma KeyTextTwo(k1: string, v1: string, k2: string, v2: string)
    requires Less(k1, k2)
    ensures KeyText(map[k1 := v1, k2 := v2]) == KeyLine(k1, v1) + KeyLine(k2, v2)
  {
    assert map[k1 := v1, k2 := v2] == map[k1 := v1] + map[k2 := v2];
    KeyTextSplit(map[k1 := v1], map[k2 := v2]);
    KeyTextSingle(k1, v1);
    KeyTextSingle(k2, v2);
  }

  /** A named section with two keys: header, the two lines in key order, an
      empty line. */
  lemma SimpleTwoKeys(name: string, k1: string, v1: string, k2: string, v2: string, def: string)
    requires name != def && Less(k1, k2)
    ensures SimpleDoc(map[name := map[k1 := v1, k2 := v2]], def)
            == Header(name) + KeyLine(k1, v1) + KeyLine(k2, v2) + "\n"
  {
    KeyTextTwo(k1, v1, k2, v2);
    SimpleSingle(name, map[k1 := v1, k2 := v2], def);
  }

  /** The default section's block has no header and keeps its place in
      name order: a section named below it comes first, so its lines follow
      that section's lines directly. */
  lemma DefaultBlockInPlace(name: string, i1: map<string, string>, def: string, i2: map<string, string>)
    requires Less(name, def)
    ensures SimpleDoc(map[name := i1, def := i2], def)
            == Header(name) + KeyText(i1) + "\n" + KeyText(i2) + "\n"
  {
    var d1, d2 := map[name := i1], map[def := i2];
    assert Below(d1, d2);
    assert map[name := i1, def := i2] == d1 + d2;
    LessIrreflexive(name);
    calc {
      SimpleDoc(d1 + d2, def);
      { SimpleSplit(d1, d2, def); }
      SimpleDoc(d1, def) + SimpleDoc(d2, def);
      { SimpleSingle(name, i1, def); SimpleSingle(def, i2, def); }
      (Header(name) + KeyText(i1) + "\n") + (KeyText(i2) + "\n");
      Header(name) + KeyText(i1) + "\n" + KeyText(i2) + "\n";
    }
  }

  /** `{"a": {"k": "1"}, "z": {"m": "2"}}` with default section `z`: the
      headerless `m = 2` comes after the `[a]` block. */
  lemma DefaultExample()
    ensures SimpleDoc(map["a" := map["k" := "1"], "z" := map["m" := "2"]], "z") == "[a]\nk = 1\n\nm = 2\n\n"
  {
    calc {
      SimpleDoc(map["a" := map["k" := "1"], "z" := map["m" := "2"]], "z");
      { assert Less("a", "z");
        DefaultBlockInPlace("a", map["k" := "1"], "z", map["m" := "2"]);
        KeyTextSingle("k", "1"); KeyTextSingle("m", "2"); }
      Header("a") + KeyLine("k", "1") + "\n" + KeyLine("m", "2") + "\n";
      "[a]\nk = 1\n\nm = 2\n\n";
    }
  }

  /** `{"S": {"a": "1", "b": "2"}}` without a default section name. */
  lemma SimpleExample()
    ensures SimpleDoc(map["S" := map["a" := "1", "b" := "2"]], "") == "[S]\na = 1\nb = 2\n\n"
  {
    calc {
      SimpleDoc(map["S" := map["a" := "1", "b" := "2"]], "");
      { assert Less("a", "b"); SimpleTwoKeys("S", "a", "1", "b", "2", ""); }
      Header("S") + KeyLine("a", "1") + KeyLine("b", "2") + "\n";
      "[S]\na = 1\nb = 2\n\n";
    }
  }
}
