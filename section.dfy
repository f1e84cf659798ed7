/** `buildSectionBuffer`: the lines written for the entries of one section
    (or of the default section), in whatever order the Go map's iteration
    delivers the keys. Only order-free facts are claimed about the result. */
module SectionBody {
  import opened Keys
  import opened Text
  import opened Values
  import opened Sink

  /** One `key[] = element` line per element of a string array. */
  function ArrayLines(key: string, xs: seq<string>): seq<string> {
    if xs == [] then []
    else ArrayLines(key, xs[..|xs| - 1]) + [ArrayLine(key, xs[|xs| - 1])]
  }

  /** A `[]string` value yields exactly one line per element, in array order. */
  lemma {:induction false} ArrayLinesAt(key: string, xs: seq<string>)
    ensures |ArrayLines(key, xs)| == |xs|
    ensures forall i :: 0 <= i < |xs| ==> ArrayLines(key, xs)[i] == ArrayLine(key, xs[i])
  {
    if xs != [] {
      ArrayLinesAt(key, xs[..|xs| - 1]);
    }
  }

  /** The type switch of one entry: scalars give `key = v`, string arrays one
      `key[] = e` per element; `[]int`, nested maps and any other type give
      nothing. */
  function ValueLines(key: string, v: Value): seq<string> {
    match v
    case Plain(s) => [KeyLine(key, Format(s))]
    case StringArray(xs) => ArrayLines(key, xs)
    case _ => []
  }

  function EntryLines(m: map<string, Value>, key: string): seq<string> {
    if key in m then ValueLines(key, m[key]) else []
  }

  /** The lines written for the entries of `m` visited in `order`. */
  function BodyLines(m: map<string, Value>, order: seq<string>): seq<string> {
    if order == [] then []
    else BodyLines(m, order[..|order| - 1]) + EntryLines(m, order[|order| - 1])
  }

  function BodyText(m: map<string, Value>, order: seq<string>): string {
    Join(BodyLines(m, order))
  }

  /** `order` visits every key of the set exactly once: one possible
      iteration order of a Go map with that key set. */
  ghost predicate Enumerates(order: seq<string>, keys: set<string>) {
    multiset(order) == multiset(keys)
  }

  /** Reference definition, independent of any order: `line` is a line that
      entry `k` of `m` has to produce. */
  ghost predicate Emits(m: map<string, Value>, k: string, line: string) {
    k in m &&
    match m[k]
    case Plain(s) => line == KeyLine(k, Format(s))
    case StringArray(xs) => exists i :: 0 <= i < |xs| && line == ArrayLine(k, xs[i])
    case _ => false
  }

  /** The multiset of lines of the entries with keys in `keys`, taken in no
      particular order. */
  ghost function LineBag(m: map<string, Value>, keys: set<string>): multiset<string>
    decreases |keys|
  {
    if keys == {} then multiset{}
    else
      var k :| k in keys;
      multiset(EntryLines(m, k)) + LineBag(m, keys - {k})
  }

  lemma {:induction false} LineBagPick(m: map<string, Value>, keys: set<string>, x: string)
    requires x in keys
    ensures LineBag(m, keys) == multiset(EntryLines(m, x)) + LineBag(m, keys - {x})
    decreases |keys|
  {
    var k :| k in keys && LineBag(m, keys) == multiset(EntryLines(m, k)) + LineBag(m, keys - {k});
    if k != x {
      LineBagPick(m, keys - {k}, x);
      LineBagPick(m, keys - {x}, k);
      assert keys - {k} - {x} == keys - {x} - {k};
    }
  }

  /** Whatever order the keys are visited in, the lines written are the same
      multiset, LineBag. */
  lemma {:induction false} BodyLinesBag(m: map<string, Value>, order: seq<string>, keys: set<string>)
    requires Enumerates(order, keys)
    ensures multiset(BodyLines(m, order)) == LineBag(m, keys)
    decreases |order|
  {
    if order == [] {
      assert |multiset(keys)| == 0;
      assert keys == {};
    } else {
      var init, x := order[..|order| - 1], order[|order| - 1];
      assert order == init + [x];
      assert x in multiset(order);
      assert multiset(keys - {x}) == multiset(keys) - multiset{x};
      BodyLinesBag(m, init, keys - {x});
      LineBagPick(m, keys, x);
    }
  }

  /** The section body's lines do not depend on the map's iteration order. */
  lemma BodyOrderFree(m: map<string, Value>, o1: seq<string>, o2: seq<string>)
    requires Enumerates(o1, m.Keys) && Enumerates(o2, m.Keys)
    ensures multiset(BodyLines(m, o1)) == multiset(BodyLines(m, o2))
  {
    BodyLinesBag(m, o1, m.Keys);
    BodyLinesBag(m, o2, m.Keys);
  }

  lemma EntryLinesEmit(m: map<string, Value>, k: string, line: string)
    ensures line in EntryLines(m, k) <==> Emits(m, k, line)
  {
    if k in m && m[k].StringArray? {
      var xs := m[k].strs;
      ArrayLinesAt(k, xs);
      if line in ArrayLines(k, xs) {
        var i :| 0 <= i < |xs| && ArrayLines(k, xs)[i] == line;
      }
      if Emits(m, k, line) {
        var i :| 0 <= i < |xs| && line == ArrayLine(k, xs[i]);
        assert ArrayLines(k, xs)[i] == line;
      }
    }
  }

  /** A body line is produced by some visited entry, and every visited entry
      produces its lines. */
  lemma {:induction false} BodyLinesOrigin(m: map<string, Value>, order: seq<string>, line: string)
    ensures line in BodyLines(m, order) <==> exists k :: k in order && Emits(m, k, line)
  {
    if order != [] {
      var init, x := order[..|order| - 1], order[|order| - 1];
      BodyLinesOrigin(m, init, line);
      EntryLinesEmit(m, x, line);
      if exists k :: k in order && Emits(m, k, line) {
        var k :| k in order && Emits(m, k, line);
        if k != x {
          assert k in init;
        }
      }
    }
  }

  /** The set of lines of a section body: exactly the lines its scalar and
      string-array entries must produce, whatever the iteration order. */
  lemma BodyLinesExactly(m: map<string, Value>, order: seq<string>, line: string)
    requires Enumerates(order, m.Keys)
    ensures line in BodyLines(m, order) <==> exists k :: k in m && Emits(m, k, line)
  {
    BodyLinesOrigin(m, order, line);
    if exists k :: k in m && Emits(m, k, line) {
      var k :| k in m && Emits(m, k, line);
      assert k in multiset(order);
    }
  }

  /** An entry whose value is `[]int`, a nested map or of another type
      contributes nothing: the body's lines are those of the other entries. */
  lemma SkippedEntrySilent(m: map<string, Value>, k: string)
    requires k in m && !m[k].Plain? && !m[k].StringArray?
    ensures LineBag(m, m.Keys) == LineBag(m, m.Keys - {k})
  {
    LineBagPick(m, m.Keys, k);
  }

  /** The inner loop over a `[]string` value. */
  method WriteArrayLines(key: string, xs: seq<string>, buf: Buffer)
    modifies buf
    ensures buf.contents == old(buf.contents) + Join(ArrayLines(key, xs))
  {
    for i := 0 to |xs|
      invariant buf.contents == old(buf.contents) + Join(ArrayLines(key, xs[..i]))
    {
      assert xs[..i + 1][..i] == xs[..i];
      buf.WriteString(ArrayLine(key, xs[i]));
    }
    assert xs[..|xs|] == xs;
  }

  /** The type switch on one entry, writing its lines (if any) to `buf`. */
  method WriteValueLines(key: string, v: Value, buf: Buffer)
    modifies buf
    ensures buf.contents == old(buf.contents) + Join(ValueLines(key, v))
  {
    match v {
      case Plain(s) =>
        buf.WriteString(KeyLine(key, Format(s)));
        assert [KeyLine(key, Format(s))][..0] == [];
      case StringArray(xs) =>
        WriteArrayLines(key, xs, buf);
      case _ =>
    }
  }

  /** Appending one more entry's lines to text that already ends with the
      body so far. */
  lemma BodyTextStep(m: map<string, Value>, order: seq<string>, key: string, written: string)
    requires key in m
    ensures written + BodyText(m, order + [key]) == written + BodyText(m, order) + Join(ValueLines(key, m[key]))
  {
    assert (order + [key])[..|order|] == order;
    JoinAppend(BodyLines(m, order), EntryLines(m, key));
  }

  /** `buildSectionBuffer(data, buf)`: visits the keys in an unspecified order
      (returned as `order`) and appends each entry's lines to `buf`. */
  method BuildSectionBuffer(data: map<string, Value>, buf: Buffer) returns (ghost order: seq<string>)
    modifies buf
    ensures Enumerates(order, data.Keys)
    ensures buf.contents == old(buf.contents) + BodyText(data, order)
  {
    order := [];
    var rest := data.Keys;
    while rest != {}
      invariant rest <= data.Keys
      invariant multiset(order) + multiset(rest) == multiset(data.Keys)
      invariant buf.contents == old(buf.contents) + BodyText(data, order)
      decreases |rest|
    {
      var key :| key in rest;
      BodyTextStep(data, order, key, old(buf.contents));
      WriteValueLines(key, data[key], buf);
      TakeOne(rest, key);
      order := order + [key];
      rest := rest - {key};
    }
  }
}
