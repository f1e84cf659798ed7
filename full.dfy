/** `EncodeFull`: a heterogeneous document becomes a default region (top-level
    scalars and string arrays, and the body of the section named like the
    default section) followed by a sections region (`[name]` plus body for
    every other section), both in ascending top-level key order. */
module FullMode {
  import opened Keys
  import opened Text
  import opened Values
  import opened Sink
  import opened SectionBody

  /** The iteration order `buildSectionBuffer` used for the section at `k`. */
  function OrderOf(orders: map<string, seq<string>>, k: string): seq<string> {
    if k in orders then orders[k] else []
  }

  /** The section at `k`, if there is one, was visited in an enumeration of its keys. */
  ghost predicate OrderValidAt(data: map<string, Value>, orders: map<string, seq<string>>, k: string) {
    k in data && data[k].Section? ==> k in orders && Enumerates(orders[k], data[k].entries.Keys)
  }

  /** Every section of the document was visited in some enumeration of its keys. */
  ghost predicate ValidOrders(data: map<string, Value>, orders: map<string, seq<string>>) {
    forall k :: OrderValidAt(data, orders, k)
  }

  /** A top-level entry that gets its own `[k]` header. */
  predicate IsNamedSection(data: map<string, Value>, def: string, k: string) {
    k in data && data[k].Section? && k != def
  }

  /** What top-level entry `k` writes into the default buffer. */
  function DefaultPart(data: map<string, Value>, def: string, orders: map<string, seq<string>>, k: string): string {
    if k !in data then ""
    else
      match data[k]
      case Plain(s) => KeyLine(k, Format(s))
      case StringArray(xs) => Join(ArrayLines(k, xs))
      case Section(entries) => if k == def then BodyText(entries, OrderOf(orders, k)) else ""
      case _ => ""
  }

  /** What a named section `k` writes into the sections buffer. */
  function SectionPart(data: map<string, Value>, orders: map<string, seq<string>>, k: string): string {
    if k in data && data[k].Section? then Header(k) + BodyText(data[k].entries, OrderOf(orders, k))
    else ""
  }

  /** What the entries at `keys` write into the default buffer, one part per key. */
  function DefaultParts(data: map<string, Value>, def: string, orders: map<string, seq<string>>, keys: seq<string>): seq<string> {
    seq(|keys|, i requires 0 <= i < |keys| => DefaultPart(data, def, orders, keys[i]))
  }

  function DefaultRegion(data: map<string, Value>, def: string, orders: map<string, seq<string>>, keys: seq<string>): string {
    Join(DefaultParts(data, def, orders, keys))
  }

  /** The keys among `keys` that get a header, in the same order. */
  function Named(data: map<string, Value>, def: string, keys: seq<string>): seq<string> {
    if keys == [] then []
    else Named(data, def, keys[..|keys| - 1]) + (if IsNamedSection(data, def, keys[|keys| - 1]) then [keys[|keys| - 1]] else [])
  }

  /** What the sections named in `names` write into the sections buffer. */
  function SectionParts(data: map<string, Value>, orders: map<string, seq<string>>, names: seq<string>): seq<string> {
    seq(|names|, i requires 0 <= i < |names| => SectionPart(data, orders, names[i]))
  }

  function SectionsRegion(data: map<string, Value>, orders: map<string, seq<string>>, names: seq<string>): string {
    Join(SectionParts(data, orders, names))
  }

  ghost function DefaultText(data: map<string, Value>, def: string, orders: map<string, seq<string>>): string {
    DefaultRegion(data, def, orders, SortedKeys(data.Keys))
  }

  ghost function SectionsText(data: map<string, Value>, def: string, orders: map<string, seq<string>>): string {
    SectionsRegion(data, orders, Named(data, def, SortedKeys(data.Keys)))
  }

  /** The whole output: the default buffer, then the sections buffer. */
  ghost function FullDoc(data: map<string, Value>, def: string, orders: map<string, seq<string>>): string {
    DefaultText(data, def, orders) + SectionsText(data, def, orders)
  }

  // ---- step and frame lemmas used by the loop of EncodeFull ----

  lemma DefaultRegionStep(data: map<string, Value>, def: string, orders: map<string, seq<string>>, keys: seq<string>, k: string)
    ensures DefaultRegion(data, def, orders, keys + [k])
            == DefaultRegion(data, def, orders, keys) + DefaultPart(data, def, orders, k)
  {
    assert DefaultParts(data, def, orders, keys + [k]) == DefaultParts(data, def, orders, keys) + [DefaultPart(data, def, orders, k)];
    JoinAppend(DefaultParts(data, def, orders, keys), [DefaultPart(data, def, orders, k)]);
  }

  lemma NamedStep(data: map<string, Value>, def: string, keys: seq<string>, k: string)
    ensures Named(data, def, keys + [k])
            == Named(data, def, keys) + (if IsNamedSection(data, def, k) then [k] else [])
  {
    assert (keys + [k])[..|keys|] == keys;
  }

  lemma SectionsRegionStep(data: map<string, Value>, orders: map<string, seq<string>>, names: seq<string>, k: string)
    ensures SectionsRegion(data, orders, names + [k]) == SectionsRegion(data, orders, names) + SectionPart(data, orders, k)
  {
    assert SectionParts(data, orders, names + [k]) == SectionParts(data, orders, names) + [SectionPart(data, orders, k)];
    JoinAppend(SectionParts(data, orders, names), [SectionPart(data, orders, k)]);
  }

  lemma RegionsStep(data: map<string, Value>, def: string, orders: map<string, seq<string>>, keys: seq<string>, k: string)
    ensures DefaultRegion(data, def, orders, keys + [k])
            == DefaultRegion(data, def, orders, keys) + DefaultPart(data, def, orders, k)
    ensures SectionsRegion(data, orders, Named(data, def, keys + [k]))
            == SectionsRegion(data, orders, Named(data, def, keys))
               + (if IsNamedSection(data, def, k) then SectionPart(data, orders, k) else "")
  {
    DefaultRegionStep(data, def, orders, keys, k);
    NamedStep(data, def, keys, k);
    var ns := Named(data, def, keys);
    if IsNamedSection(data, def, k) {
      SectionsRegionStep(data, orders, ns, k);
    } else {
      assert ns + [] == ns;
    }
  }

  /** A section's part depends on the order recorded for that section only. */
  lemma SectionsOrdersFrame(data: map<string, Value>, o1: map<string, seq<string>>, o2: map<string, seq<string>>, names: seq<string>)
    requires forall k :: k in names ==> OrderOf(o1, k) == OrderOf(o2, k)
    ensures SectionsRegion(data, o1, names) == SectionsRegion(data, o2, names)
  {
    assert SectionParts(data, o1, names) == SectionParts(data, o2, names);
  }

  lemma RegionsOrdersFrame(data: map<string, Value>, def: string, o1: map<string, seq<string>>, o2: map<string, seq<string>>, keys: seq<string>)
    requires forall k :: k in keys ==> OrderOf(o1, k) == OrderOf(o2, k)
    ensures DefaultRegion(data, def, o1, keys) == DefaultRegion(data, def, o2, keys)
    ensures SectionsRegion(data, o1, Named(data, def, keys)) == SectionsRegion(data, o2, Named(data, def, keys))
  {
    assert DefaultParts(data, def, o1, keys) == DefaultParts(data, def, o2, keys);
    var ns := Named(data, def, keys);
    forall k | k in ns ensures OrderOf(o1, k) == OrderOf(o2, k) {
      NamedMembers(data, def, keys, k);
    }
    SectionsOrdersFrame(data, o1, o2, ns);
  }

  lemma PartsOwnOrder(data: map<string, Value>, def: string, o1: map<string, seq<string>>, o2: map<string, seq<string>>, k: string)
    requires OrderOf(o1, k) == OrderOf(o2, k)
    ensures DefaultPart(data, def, o1, k) == DefaultPart(data, def, o2, k)
    ensures SectionPart(data, o1, k) == SectionPart(data, o2, k)
  {
  }

  /** One iteration of `EncodeFull`'s loop: the type switch on the value at
      `key`. `ord` is the order in which a section's keys were visited. */
  method WriteTopLevel(data: map<string, Value>, def: string, key: string, defBuf: Buffer, secBuf: Buffer)
    returns (ghost ord: seq<string>)
    requires key in data && defBuf != secBuf
    modifies defBuf, secBuf
    ensures data[key].Section? ==> Enumerates(ord, data[key].entries.Keys)
    ensures defBuf.contents == old(defBuf.contents) + DefaultPart(data, def, map[key := ord], key)
    ensures secBuf.contents == old(secBuf.contents)
              + (if IsNamedSection(data, def, key) then SectionPart(data, map[key := ord], key) else "")
  {
    ord := [];
    var item := data[key];
    match item {
      case Plain(_) =>
        WriteValueLines(key, item, defBuf);
      case IntArray(_) =>
      case StringArray(_) =>
        WriteValueLines(key, item, defBuf);
      case Section(entries) =>
        if key != def {
          secBuf.WriteString(Header(key));
          ord := BuildSectionBuffer(entries, secBuf);
        } else {
          ord := BuildSectionBuffer(entries, defBuf);
        }
      case Unsupported =>
    }
  }

  /** The loop of `EncodeFull` over the sorted top-level keys, filling the
      default and the sections buffer. */
  method WriteRegions(data: map<string, Value>, def: string, sections: seq<string>, defBuf: Buffer, secBuf: Buffer)
    returns (ghost orders: map<string, seq<string>>)
    requires Ascending(sections) && forall k :: k in sections ==> k in data
    requires defBuf != secBuf && defBuf.contents == [] && secBuf.contents == []
    modifies defBuf, secBuf
    ensures defBuf.contents == DefaultRegion(data, def, orders, sections)
    ensures secBuf.contents == SectionsRegion(data, orders, Named(data, def, sections))
    ensures forall k :: k in sections ==> OrderValidAt(data, orders, k)
  {
    orders := map[];
    for i := 0 to |sections|
      invariant defBuf.contents == DefaultRegion(data, def, orders, sections[..i])
      invariant secBuf.contents == SectionsRegion(data, orders, Named(data, def, sections[..i]))
      invariant forall k :: k in sections[..i] ==> OrderValidAt(data, orders, k)
    {
      var key := sections[i];
      AscendingPrefixExcludes(sections, i);
      ghost var ord := WriteTopLevel(data, def, key, defBuf, secBuf);
      ghost var next := orders[key := ord];
      PartsOwnOrder(data, def, map[key := ord], next, key);
      RegionsOrdersFrame(data, def, orders, next, sections[..i]);
      RegionsStep(data, def, next, sections[..i], key);
      orders := next;
    }
    assert sections[..|sections|] == sections;
  }

  /** `EncodeFull(data, defSection...)`. `orders` records the iteration order
      `buildSectionBuffer` happened to use for each section. */
  method EncodeFull(data: map<string, Value>, defSection: seq<string>) returns (out: string, ghost orders: map<string, seq<string>>)
    ensures ValidOrders(data, orders)
    ensures out == FullDoc(data, DefaultSectionName(defSection), orders)
  {
    if |data| == 0 {
      FullEmpty(data, DefaultSectionName(defSection), map[]);
      return [], map[];
    }
    var defSecName := DefaultSectionName(defSection);
    var sections := OrderedKeys(data);
    forall k | k in sections ensures k in data {
      assert k in multiset(sections);
    }
    var defBuf := new Buffer();
    var secBuf := new Buffer();
    orders := WriteRegions(data, defSecName, sections, defBuf, secBuf);
    forall k ensures OrderValidAt(data, orders, k) {
      if k in data {
        assert k in multiset(data.Keys);
      }
    }
    defBuf.WriteString(secBuf.String());
    out := defBuf.String();
  }

  // ---- properties of the full-mode output ----

  /** An empty map encodes to no text at all. */
  lemma FullEmpty(data: map<string, Value>, def: string, orders: map<string, seq<string>>)
    requires |data| == 0
    ensures FullDoc(data, def, orders) == []
  {
    assert data.Keys == {};
    assert |SortedKeys(data.Keys)| == |multiset(data.Keys)| == 0;
  }

  lemma SectionsRegionAppend(data: map<string, Value>, orders: map<string, seq<string>>, x: seq<string>, y: seq<string>)
    ensures SectionsRegion(data, orders, x + y) == SectionsRegion(data, orders, x) + SectionsRegion(data, orders, y)
  {
    assert SectionParts(data, orders, x + y) == SectionParts(data, orders, x) + SectionParts(data, orders, y);
    JoinAppend(SectionParts(data, orders, x), SectionParts(data, orders, y));
  }

  lemma DefaultRegionAppend(data: map<string, Value>, def: string, orders: map<string, seq<string>>, a: seq<string>, b: seq<string>)
    ensures DefaultRegion(data, def, orders, a + b)
            == DefaultRegion(data, def, orders, a) + DefaultRegion(data, def, orders, b)
  {
    assert DefaultParts(data, def, orders, a + b) == DefaultParts(data, def, orders, a) + DefaultParts(data, def, orders, b);
    JoinAppend(DefaultParts(data, def, orders, a), DefaultParts(data, def, orders, b));
  }

  lemma {:induction false} NamedAppend(data: map<string, Value>, def: string, a: seq<string>, b: seq<string>)
    ensures Named(data, def, a + b) == Named(data, def, a) + Named(data, def, b)
  {
    if b == [] {
      assert a + b == a;
    } else {
      var init, k := b[..|b| - 1], b[|b| - 1];
      var tail := if IsNamedSection(data, def, k) then [k] else [];
      calc {
        Named(data, def, a + b);
        { assert a + b == (a + init) + [k]; }
        Named(data, def, (a + init) + [k]);
        { NamedStep(data, def, a + init, k); }
        Named(data, def, a + init) + tail;
        { NamedAppend(data, def, a, init); }
        Named(data, def, a) + Named(data, def, init) + tail;
        { NamedStep(data, def, init, k); assert b == init + [k]; }
        Named(data, def, a) + Named(data, def, b);
      }
    }
  }

  lemma {:induction false} NamedAgree(d1: map<string, Value>, d2: map<string, Value>, def: string, keys: seq<string>)
    requires forall k :: k in keys ==> (k in d1 <==> k in d2) && (k in d1 ==> d1[k] == d2[k])
    ensures Named(d1, def, keys) == Named(d2, def, keys)
  {
    if keys != [] {
      var init, k := keys[..|keys| - 1], keys[|keys| - 1];
      assert keys == init + [k];
      NamedAgree(d1, d2, def, init);
      NamedStep(d1, def, init, k);
      NamedStep(d2, def, init, k);
    }
  }

  lemma SectionsAgree(d1: map<string, Value>, d2: map<string, Value>, orders: map<string, seq<string>>, names: seq<string>)
    requires forall k :: k in names ==> SectionPart(d1, orders, k) == SectionPart(d2, orders, k)
    ensures SectionsRegion(d1, orders, names) == SectionsRegion(d2, orders, names)
  {
    assert SectionParts(d1, orders, names) == SectionParts(d2, orders, names);
  }

  /** The regions over `keys` only look at the entries for those keys. */
  lemma RegionsAgree(d1: map<string, Value>, d2: map<string, Value>, def: string, orders: map<string, seq<string>>, keys: seq<string>)
    requires forall k :: k in keys ==> (k in d1 <==> k in d2) && (k in d1 ==> d1[k] == d2[k])
    ensures DefaultRegion(d1, def, orders, keys) == DefaultRegion(d2, def, orders, keys)
    ensures Named(d1, def, keys) == Named(d2, def, keys)
    ensures SectionsRegion(d1, orders, Named(d1, def, keys)) == SectionsRegion(d2, orders, Named(d2, def, keys))
  {
    assert DefaultParts(d1, def, orders, keys) == DefaultParts(d2, def, orders, keys);
    NamedAgree(d1, d2, def, keys);
    var ns := Named(d1, def, keys);
    forall k | k in ns ensures SectionPart(d1, orders, k) == SectionPart(d2, orders, k) {
      NamedMembers(d1, def, keys, k);
    }
    SectionsAgree(d1, d2, orders, ns);
  }

  lemma FullSplitDefault(d1: map<string, Value>, d2: map<string, Value>, def: string, orders: map<string, seq<string>>)
    requires Below(d1, d2)
    ensures DefaultText(d1 + d2, def, orders) == DefaultText(d1, def, orders) + DefaultText(d2, def, orders)
  {
    var d := d1 + d2;
    SortedUnion(d1, d2);
    var s1, s2 := SortedKeys(d1.Keys), SortedKeys(d2.Keys);
    DefaultRegionAppend(d, def, orders, s1, s2);
    RegionsAgree(d, d1, def, orders, s1);
    RegionsAgree(d, d2, def, orders, s2);
  }

  lemma FullSplitSections(d1: map<string, Value>, d2: map<string, Value>, def: string, orders: map<string, seq<string>>)
    requires Below(d1, d2)
    ensures SectionsText(d1 + d2, def, orders) == SectionsText(d1, def, orders) + SectionsText(d2, def, orders)
  {
    var d := d1 + d2;
    SortedUnion(d1, d2);
    var s1, s2 := SortedKeys(d1.Keys), SortedKeys(d2.Keys);
    NamedAppend(d, def, s1, s2);
    SectionsRegionAppend(d, orders, Named(d, def, s1), Named(d, def, s2));
    RegionsAgree(d, d1, def, orders, s1);
    RegionsAgree(d, d2, def, orders, s2);
  }

  /** Ascending key order carries over: when every key of `d1` is below every
      key of `d2`, each region of `d1 + d2` is that of `d1` followed by that
      of `d2`. */
  lemma FullSplit(d1: map<string, Value>, d2: map<string, Value>, def: string, orders: map<string, seq<string>>)
    requires Below(d1, d2)
    ensures DefaultText(d1 + d2, def, orders) == DefaultText(d1, def, orders) + DefaultText(d2, def, orders)
    ensures SectionsText(d1 + d2, def, orders) == SectionsText(d1, def, orders) + SectionsText(d2, def, orders)
  {
    FullSplitDefault(d1, d2, def, orders);
    FullSplitSections(d1, d2, def, orders);
  }

  /** A document holding a single entry: its regions are that entry's parts. */
  lemma SingleRegions(k: string, v: Value, def: string, orders: map<string, seq<string>>)
    ensures var d := map[k := v];
      && DefaultText(d, def, orders) == DefaultPart(d, def, orders, k)
      && SectionsText(d, def, orders) == if IsNamedSection(d, def, k) then SectionPart(d, orders, k) else ""
  {
    var d := map[k := v];
    assert d.Keys == {k};
    SortedKeysSingleton(k);
    RegionsStep(d, def, orders, [], k);
    assert [] + [k] == [k];
  }

  /** The type dispatch of one top-level entry, on a document holding only it. */
  lemma FullSingle(k: string, v: Value, def: string, orders: map<string, seq<string>>)
    ensures var d := map[k := v];
      && (v.Plain? ==> DefaultText(d, def, orders) == KeyLine(k, Format(v.scalar)) && SectionsText(d, def, orders) == "")
      && (v.StringArray? ==> DefaultText(d, def, orders) == Join(ArrayLines(k, v.strs)) && SectionsText(d, def, orders) == "")
      && (v.IntArray? || v.Unsupported? ==> DefaultText(d, def, orders) == "" && SectionsText(d, def, orders) == "")
      && (v.Section? && k == def ==>
            DefaultText(d, def, orders) == BodyText(v.entries, OrderOf(orders, k)) && SectionsText(d, def, orders) == "")
      && (v.Section? && k != def ==>
            DefaultText(d, def, orders) == "" && SectionsText(d, def, orders) == Header(k) + BodyText(v.entries, OrderOf(orders, k)))
  {
    SingleRegions(k, v, def, orders);
  }

  /** A document glued from three key ranges whose middle one writes
      nothing encodes like the outer ranges alone. */
  lemma DropSilentDefault(lo: map<string, Value>, mid: map<string, Value>, hi: map<string, Value>, def: string, orders: map<string, seq<string>>)
    requires Below(lo + mid, hi)
    requires Below(lo, mid)
    requires Below(lo, hi)
    requires DefaultText(mid, def, orders) == ""
    ensures DefaultText(lo + mid + hi, def, orders) == DefaultText(lo + hi, def, orders)
  {
    var l, m, h := DefaultText(lo, def, orders), DefaultText(mid, def, orders), DefaultText(hi, def, orders);
    calc {
      DefaultText(lo + mid + hi, def, orders);
      { FullSplitDefault(lo + mid, hi, def, orders); }
      DefaultText(lo + mid, def, orders) + h;
      { FullSplitDefault(lo, mid, def, orders); }
      l + m + h;
      { assert l + m == l; }
      l + h;
      { FullSplitDefault(lo, hi, def, orders); }
      DefaultText(lo + hi, def, orders);
    }
  }

  lemma DropSilentSections(lo: map<string, Value>, mid: map<string, Value>, hi: map<string, Value>, def: string, orders: map<string, seq<string>>)
    requires Below(lo + mid, hi)
    requires Below(lo, mid)
    requires Below(lo, hi)
    requires SectionsText(mid, def, orders) == ""
    ensures SectionsText(lo + mid + hi, def, orders) == SectionsText(lo + hi, def, orders)
  {
    var l, m, h := SectionsText(lo, def, orders), SectionsText(mid, def, orders), SectionsText(hi, def, orders);
    calc {
      SectionsText(lo + mid + hi, def, orders);
      { FullSplitSections(lo + mid, hi, def, orders); }
      SectionsText(lo + mid, def, orders) + h;
      { FullSplitSections(lo, mid, def, orders); }
      l + m + h;
      { assert l + m == l; }
      l + h;
      { FullSplitSections(lo, hi, def, orders); }
      SectionsText(lo + hi, def, orders);
    }
  }

  /** A top-level `[]int` value, or one of an unsupported type, has no effect
      on the output: the document without it encodes to the same text. */
  lemma FullSkipsUnsupported(data: map<string, Value>, def: string, orders: map<string, seq<string>>, k: string)
    requires k in data && (data[k].IntArray? || data[k].Unsupported?)
    ensures FullDoc(data, def, orders) == FullDoc(data - {k}, def, orders)
  {
    var lo, hi := SplitAround(data, k);
    FullSingle(k, data[k], def, orders);
    DropSilentDefault(lo, map[k := data[k]], hi, def, orders);
    DropSilentSections(lo, map[k := data[k]], hi, def, orders);
  }

  /** The names that get a header are exactly the section-valued entries
      not named like the default section. */
  lemma {:induction false} NamedMembers(data: map<string, Value>, def: string, keys: seq<string>, x: string)
    ensures x in Named(data, def, keys) <==> x in keys && IsNamedSection(data, def, x)
  {
    if keys != [] {
      var init, k := keys[..|keys| - 1], keys[|keys| - 1];
      assert keys == init + [k];
      NamedMembers(data, def, init, x);
      NamedStep(data, def, init, k);
    }
  }

  lemma {:induction false} NamedAscending(data: map<string, Value>, def: string, keys: seq<string>)
    requires Ascending(keys)
    ensures Ascending(Named(data, def, keys))
  {
    if keys != [] {
      var init, k := keys[..|keys| - 1], keys[|keys| - 1];
      assert keys == init + [k];
      NamedAscending(data, def, init);
      NamedStep(data, def, init, k);
      var ns := Named(data, def, init);
      forall x | x in ns ensures Less(x, k) {
        NamedMembers(data, def, init, x);
        var j :| 0 <= j < |init| && init[j] == x;
      }
    }
  }

  /** Headers appear in strictly ascending name order, and exactly the
      section-valued entries not named like the default section get one. */
  lemma HeadersAscending(data: map<string, Value>, def: string)
    ensures Ascending(Named(data, def, SortedKeys(data.Keys)))
    ensures forall k :: k in Named(data, def, SortedKeys(data.Keys)) <==> IsNamedSection(data, def, k)
  {
    NamedAscending(data, def, SortedKeys(data.Keys));
    forall k ensures k in Named(data, def, SortedKeys(data.Keys)) <==> IsNamedSection(data, def, k) {
      NamedMembers(data, def, SortedKeys(data.Keys), k);
      if k in data {
        assert k in multiset(data.Keys);
      }
    }
  }

  lemma {:induction false} NamedNone(data: map<string, Value>, def: string, keys: seq<string>)
    requires forall k :: k in keys ==> !IsNamedSection(data, def, k)
    ensures Named(data, def, keys) == []
  {
    if keys != [] {
      var init, k := keys[..|keys| - 1], keys[|keys| - 1];
      assert keys == init + [k];
      NamedNone(data, def, init);
      NamedStep(data, def, init, k);
    }
  }

  /** A document without section values other than the default one has an
      empty sections region: no header at all. */
  lemma NoSectionsNoHeaders(data: map<string, Value>, def: string, orders: map<string, seq<string>>)
    requires forall k :: k in data && data[k].Section? ==> k == def
    ensures FullDoc(data, def, orders) == DefaultText(data, def, orders)
  {
    NamedNone(data, def, SortedKeys(data.Keys));
  }

  /** The `key = value` line of each scalar entry among `keys`, in that order. */
  function ScalarLines(data: map<string, Value>, keys: seq<string>): seq<string> {
    seq(|keys|, i requires 0 <= i < |keys| =>
      if keys[i] in data && data[keys[i]].Plain? then KeyLine(keys[i], Format(data[keys[i]].scalar)) else "")
  }

  /** A document of scalars only: one `key = value` line per entry, keys
      ascending, and no header. */
  lemma FullScalarsOnly(data: map<string, Value>, def: string, orders: map<string, seq<string>>)
    requires forall k :: k in data ==> data[k].Plain?
    ensures FullDoc(data, def, orders) == Join(ScalarLines(data, SortedKeys(data.Keys)))
    ensures |ScalarLines(data, SortedKeys(data.Keys))| == |data|
  {
    NoSectionsNoHeaders(data, def, orders);
    var keys := SortedKeys(data.Keys);
    assert DefaultParts(data, def, orders, keys) == ScalarLines(data, keys);
    assert |keys| == |multiset(keys)| == |multiset(data.Keys)| == |data.Keys|;
  }
}
