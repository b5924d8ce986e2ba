/** `parse_pipe_format('\n'.join(serialize_pipe(m))) == m` for the values
    whose keys and scalars the PIPE syntax carries unchanged, and the cases
    where it does not. */
module PipeRoundTrip {
  import opened Text
  import opened Numerals
  import opened Values
  import opened Pipe

  // ---------------------------------------------------------------------
  // The values that survive a round trip.

  /** A scalar whose text is read back as the same scalar: not empty (a
      bare `k|` would open a block), free of surrounding whitespace and of
      line breaks, not starting with `- ` (which would be cut off), and
      coercing to the scalar itself. So `None`, which is written `None` and
      read back as the string "None", is excluded by the last condition. */
  predicate PipeScalar(v: Value)
  {
    && v.IsScalar()
    && var t := PyStr(v);
    && t != [] && IsStripped(t) && NoLineBreak(t) && !StartsWith(t, "- ") && Coerce(t) == v
  }

  /** A float whose kept text reads back as itself survives the round trip. */
  lemma FloatScalar()
    ensures PipeScalar(Float("1.5"))
  {
    CoerceCases("1.5");
  }

  /** A key that is read back as itself: no `|` (the line is split at the
      first one), no surrounding whitespace, no line break, and not
      starting with `- ` (the line would be read as a list item). */
  predicate PipeKey(k: string)
  {
    IsStripped(k) && '|' !in k && NoLineBreak(k) && !StartsWith(k, "- ")
  }

  predicate AllScalar(items: seq<Value>)
  {
    items == [] || (PipeScalar(items[0]) && AllScalar(items[1..]))
  }

  /** A dict with unique keys whose entries survive; a non-empty list of
      surviving scalars (an empty one comes back as an empty dict); a
      surviving scalar. */
  predicate PipeGood(v: Value)
    decreases v
  {
    match v
    case Map(es) => UniqueKeys(es) && GoodEntries(es)
    case List(items) => items != [] && AllScalar(items)
    case _ => PipeScalar(v)
  }

  predicate GoodEntries(es: Entries)
    decreases es
  {
    es == [] || (GoodEntry(es[0]) && GoodEntries(es[1..]))
  }

  predicate GoodEntry(e: (string, Value))
    decreases e
  {
    PipeKey(e.0) && PipeGood(e.1)
  }

  // ---------------------------------------------------------------------
  // The written lines are read back as the same levels and contents.

  /** A line whose content starts and ends with a non-space character and
      holds no line break. */
  predicate FineLine(ln: Line)
  {
    && ln.content != []
    && !IsSpace(ln.content[0])
    && !IsSpace(ln.content[|ln.content| - 1])
    && NoLineBreak(ln.content)
  }

  predicate AllFine(ls: seq<Line>)
  {
    forall k :: 0 <= k < |ls| ==> FineLine(ls[k])
  }

  lemma FineAppend(a: seq<Line>, b: seq<Line>)
    requires AllFine(a) && AllFine(b)
    ensures AllFine(a + b)
  {
    forall k | 0 <= k < |a + b|
      ensures FineLine((a + b)[k])
    {
      if k >= |a| {
        assert (a + b)[k] == b[k - |a|];
      }
    }
  }

  /** A `- t` line for a surviving scalar. */
  lemma BulletFine(v: Value, d: nat)
    requires PipeScalar(v)
    ensures FineLine(Line(d, "- " + PyStr(v)))
  {
    var t := PyStr(v);
    var c := "- " + t;
    assert c[|c| - 1] == t[|t| - 1];
    forall k | 0 <= k < |c|
      ensures !IsLineBreak(c[k])
    {
      if k >= 2 {
        assert c[k] == t[k - 2];
      }
    }
  }

  lemma {:induction false} BulletsFine(items: seq<Value>, d: nat)
    requires AllScalar(items)
    ensures AllFine(Bullets(items, d))
  {
    if items != [] {
      BulletFine(items[0], d);
      BulletsFine(items[1..], d);
      FineAppend([Line(d, "- " + PyStr(items[0]))], Bullets(items[1..], d));
    }
  }

  /** Under a key, a list of scalars is written as one `- item` line each. */
  lemma {:induction false} ScalarListLayout(items: seq<Value>, d: nat)
    requires AllScalar(items)
    ensures ListLayout(items, d) == Bullets(items, d)
  {
    if items != [] {
      ScalarListLayout(items[1..], d);
    }
  }

  /** The `k|` line of a key. */
  lemma KeyFine(k: string, d: nat)
    requires PipeKey(k)
    ensures FineLine(Line(d, k + "|"))
  {
    var c := k + "|";
    if k != [] {
      assert c[0] == k[0];
    }
    forall j | 0 <= j < |c|
      ensures !IsLineBreak(c[j])
    {
      if j < |k| {
        assert c[j] == k[j];
      }
    }
  }

  /** The `k|t` line of a key and a scalar. */
  lemma KeyScalarFine(k: string, v: Value, d: nat)
    requires PipeKey(k) && PipeScalar(v)
    ensures FineLine(Line(d, k + "|" + PyStr(v)))
  {
    var t := PyStr(v);
    var c := k + "|" + t;
    if k != [] {
      assert c[0] == k[0];
    }
    assert c[|c| - 1] == t[|t| - 1];
    forall j | 0 <= j < |c|
      ensures !IsLineBreak(c[j])
    {
      if j < |k| {
        assert c[j] == k[j];
      } else if j > |k| {
        assert c[j] == t[j - |k| - 1];
      }
    }
  }

  lemma {:induction false} EntriesFine(es: Entries, d: nat)
    requires GoodEntries(es)
    ensures AllFine(EntriesLayout(es, d))
    decreases es
  {
    if es != [] {
      EntryFine(es[0], d);
      EntriesFine(es[1..], d);
      FineAppend(EntryLayout(es[0], d), EntriesLayout(es[1..], d));
    }
  }

  lemma {:induction false} EntryFine(e: (string, Value), d: nat)
    requires GoodEntry(e)
    ensures AllFine(EntryLayout(e, d))
    decreases e
  {
    match e.1
    case Map(es) =>
      KeyFine(e.0, d);
      EntriesFine(es, d + 1);
      FineAppend([Line(d, e.0 + "|")], EntriesLayout(es, d + 1));
    case List(items) =>
      KeyFine(e.0, d);
      ScalarListLayout(items, d + 1);
      BulletsFine(items, d + 1);
      FineAppend([Line(d, e.0 + "|")], ListLayout(items, d + 1));
    case _ =>
      KeyScalarFine(e.0, e.1, d);
  }

  /** Every line written for a surviving dict or list is fine. */
  lemma LayoutFine(m: Value, d: nat)
    requires (m.Map? || m.List?) && PipeGood(m)
    ensures AllFine(Layout(m, d))
  {
    if m.Map? {
      EntriesFine(m.entries, d);
    } else {
      BulletsFine(m.items, d);
    }
  }

  /** A fine line is written without a line break, is not blank, has no
      trailing whitespace, and its leading spaces give back its level. */
  lemma RenderFine(ln: Line)
    requires FineLine(ln)
    ensures NoLineBreak(Render(ln))
    ensures Strip(Render(ln)) != []
    ensures RStrip(Render(ln)) == Render(ln)
    ensures Indented(Render(ln)) == ln
  {
    var t := Render(ln);
    var n := 4 * ln.level;
    assert t[n] == ln.content[0];
    assert t[|t| - 1] == ln.content[|ln.content| - 1];
    forall k | 0 <= k < |t|
      ensures !IsLineBreak(t[k])
    {
      if k >= n {
        assert t[k] == ln.content[k - n];
      }
    }
    StripEmpty(t);
    var m := LeadingSpaces(t);
    assert t[..n] == Spaces(n);
    assert m <= n;
    assert m >= n;
    assert t[n..] == ln.content;
  }

  /** `SplitLines` of a text without a line break is the text itself. */
  lemma {:induction false} SplitLinesNone(p: string)
    requires NoLineBreak(p)
    ensures SplitLines(p) == [p]
  {
    if p != [] {
      SplitLinesNone(p[1..]);
      assert [p[0]] + p[1..] == p;
    }
  }

  lemma {:induction false} SplitLinesAfter(p: string, rest: string)
    requires NoLineBreak(p)
    ensures SplitLines(p + "\n" + rest) == [p] + SplitLines(rest)
  {
    var s := p + "\n" + rest;
    if p == [] {
      assert s == "\n" + rest;
      assert s[1..] == rest;
    } else {
      assert s[1..] == p[1..] + "\n" + rest;
      SplitLinesAfter(p[1..], rest);
      assert [p[0]] + p[1..] == p;
    }
  }

  /** The lines a joined text is read as: each fine line, indented as written. */
  lemma {:induction false} ReadRendered(ls: seq<Line>)
    requires ls != [] && AllFine(ls)
    ensures SplitLines(Join(RenderAll(ls), "\n")) == RenderAll(ls)
    ensures NonBlank(RenderAll(ls)) == RenderAll(ls)
    ensures IndentAll(RenderAll(ls)) == ls
  {
    var r := RenderAll(ls);
    RenderFine(ls[0]);
    assert r[0] == Render(ls[0]) && r[1..] == RenderAll(ls[1..]);
    if |ls| == 1 {
      SplitLinesNone(r[0]);
    } else {
      assert AllFine(ls[1..]) by {
        forall k | 0 <= k < |ls| - 1 ensures FineLine(ls[1..][k]) {
          assert ls[1..][k] == ls[k + 1];
        }
      }
      ReadRendered(ls[1..]);
      SplitLinesAfter(r[0], Join(r[1..], "\n"));
    }
  }

  /** Splitting, dropping blank lines and reading the indentation of the
      joined lines of a fine layout gives the layout back. */
  lemma LinesOfLayout(ls: seq<Line>)
    requires AllFine(ls)
    ensures IndentAll(PipeLines(Join(RenderAll(ls), "\n"))) == ls
  {
    if ls == [] {
      assert SplitLines([]) == [[]];
    } else {
      ReadRendered(ls);
    }
  }

  // ---------------------------------------------------------------------
  // `build_block` over the written lines.

  /** The lines from `i` on start with `xs`. */
  predicate Has(L: seq<Line>, i: nat, xs: seq<Line>)
    decreases xs
  {
    i + |xs| <= |L| && (xs == [] || (L[i] == xs[0] && Has(L, i + 1, xs[1..])))
  }

  /** A block of level `d` ends at `j`: no line is left, or the line is shallower. */
  predicate Ends(L: seq<Line>, j: nat, d: nat)
  {
    j == |L| || (j < |L| && L[j].level < d)
  }

  lemma {:induction false} HasSplit(L: seq<Line>, i: nat, a: seq<Line>, b: seq<Line>)
    requires Has(L, i, a + b)
    ensures Has(L, i, a) && Has(L, i + |a|, b)
    decreases a
  {
    if a == [] {
      assert a + b == b;
    } else {
      assert (a + b)[0] == a[0] && (a + b)[1..] == a[1..] + b;
      HasSplit(L, i + 1, a[1..], b);
    }
  }

  lemma HasHead(L: seq<Line>, i: nat, xs: seq<Line>)
    requires xs != [] && Has(L, i, xs)
    ensures L[i] == xs[0] && Has(L, i + 1, xs[1..])
  {
  }

  /** The lines hold their own suffixes. */
  lemma {:induction false} HasRest(L: seq<Line>, i: nat)
    requires i <= |L|
    ensures Has(L, i, L[i..])
    decreases |L| - i
  {
    if i < |L| {
      assert L[i..][1..] == L[i + 1..];
      HasRest(L, i + 1);
    }
  }

  lemma StartsNotDash(k: string, rest: string)
    requires !StartsWith(k, "- ")
    ensures !StartsWith(k + "|" + rest, "- ")
  {
    var c := k + "|" + rest;
    if |k| >= 2 {
      assert c[..2] == k[..2];
    } else if |k| == 1 {
      assert c[1] == '|';
    } else {
      assert c[0] == '|';
    }
  }

  /** Splitting at the first `|` finds the one after the key. */
  lemma {:induction false} SplitFirstAt(k: string, rest: string)
    requires '|' !in k
    ensures '|' in k + "|" + rest
    ensures SplitFirst(k + "|" + rest, '|') == (k, rest)
  {
    var s := k + "|" + rest;
    assert s[|k|] == '|';
    if k == [] {
      assert s[1..] == rest;
    } else {
      assert s[1..] == k[1..] + "|" + rest;
      SplitFirstAt(k[1..], rest);
      assert [k[0]] + k[1..] == k;
    }
  }

  /** A block ends at a shallower line or at the end of the lines. */
  lemma BlockEnds(L: seq<Line>, i: nat, d: nat, acc: Acc)
    requires i <= |L| && Ends(L, i, d)
    ensures Block(L, i, d, acc) == Built(AccValue(acc), i)
  {
  }

  /** A `k|` line of the block's level with a fresh key sets the key to the
      block read below it. */
  lemma KeyBlockRead(L: seq<Line>, i: nat, d: nat, acc: Entries, k: string, child: Value, j: nat)
    requires i < |L| && L[i] == Line(d, k + "|") && PipeKey(k) && k !in Keys(acc)
    requires Block(L, i + 1, d + 1, Dict([])) == Built(child, j)
    ensures Block(L, i, d, Dict(acc)) == Block(L, j, d, Dict(acc + [(k, child)]))
  {
    StartsNotDash(k, "");
    SplitFirstAt(k, "");
    assert k + "|" + "" == k + "|";
    StripOfStripped(k);
    PutFresh(acc, k, child);
    assert Block(L, i, d, Dict(acc)) == KeyLine(L, i, d, Dict(acc));
  }

  /** A `k|t` line of the block's level with a fresh key sets the key to the scalar. */
  lemma KeyScalarRead(L: seq<Line>, i: nat, d: nat, acc: Entries, k: string, v: Value)
    requires i < |L| && L[i] == Line(d, k + "|" + PyStr(v)) && PipeKey(k) && PipeScalar(v)
    requires k !in Keys(acc)
    ensures Block(L, i, d, Dict(acc)) == Block(L, i + 1, d, Dict(acc + [(k, v)]))
  {
    var t := PyStr(v);
    StartsNotDash(k, t);
    SplitFirstAt(k, t);
    StripOfStripped(k);
    StripOfStripped(t);
    PutFresh(acc, k, v);
    assert Block(L, i, d, Dict(acc)) == KeyLine(L, i, d, Dict(acc));
  }

  /** A `- t` line of the block's level adds the scalar `t` stands for. */
  lemma ScalarItemRead(L: seq<Line>, i: nat, d: nat, acc: Acc, v: Value)
    requires i < |L| && L[i] == Line(d, "- " + PyStr(v)) && PipeScalar(v)
    ensures Block(L, i, d, acc) == Block(L, i + 1, d, if acc.Items? then Items(acc.items + [v]) else Items([v]))
  {
    var t := PyStr(v);
    assert ("- " + t)[..2] == "- " && ("- " + t)[2..] == t;
    StripOfStripped(t);
    assert Block(L, i, d, acc) == ItemLine(L, i, d, acc);
  }

  /** The `- item` lines of `items` after the items `acc`, up to the end `n` of the block. */
  lemma {:induction false} ItemsRead(L: seq<Line>, i: nat, d: nat, acc: seq<Value>, items: seq<Value>, n: nat)
    requires AllScalar(items) && Has(L, i, Bullets(items, d)) && n == i + |items| && Ends(L, n, d)
    ensures Block(L, i, d, Items(acc)) == Built(List(acc + items), n)
    decreases items
  {
    if items == [] {
      BlockEnds(L, i, d, Items(acc));
      assert acc + items == acc;
    } else {
      ItemStep(L, i, d, Items(acc), items);
      ItemsRead(L, i + 1, d, acc + [items[0]], items[1..], n);
      AppendHead(acc, items);
    }
  }

  /** Reading the first `- item` line, the rest of the lines are those of the other items. */
  lemma ItemStep(L: seq<Line>, i: nat, d: nat, acc: Acc, items: seq<Value>)
    requires items != [] && AllScalar(items) && Has(L, i, Bullets(items, d))
    ensures Block(L, i, d, acc) == Block(L, i + 1, d, if acc.Items? then Items(acc.items + [items[0]]) else Items([items[0]]))
    ensures Has(L, i + 1, Bullets(items[1..], d))
  {
    var b := Bullets(items, d);
    HasHead(L, i, b);
    assert b[1..] == Bullets(items[1..], d);
    ScalarItemRead(L, i, d, acc, items[0]);
  }

  /** A list's lines make a block whose first item replaces the empty dict. */
  lemma ListRead(L: seq<Line>, i: nat, d: nat, items: seq<Value>, n: nat)
    requires items != [] && AllScalar(items)
    requires Has(L, i, Bullets(items, d)) && n == i + |items| && Ends(L, n, d)
    ensures Block(L, i, d, Dict([])) == Built(List(items), n)
  {
    ItemStep(L, i, d, Dict([]), items);
    ItemsRead(L, i + 1, d, [items[0]], items[1..], n);
    HeadTail(items);
  }

  lemma HeadTail<T>(xs: seq<T>)
    requires xs != []
    ensures [xs[0]] + xs[1..] == xs
  {
    assert ([xs[0]] + xs[1..])[1..] == xs[1..];
  }

  /** A fresh key is added at the end of the dict. */
  lemma PutFresh(acc: Entries, k: string, v: Value)
    requires k !in Keys(acc)
    ensures Dict(Put(acc, k, v)) == Dict(acc + [(k, v)])
  {
    PutKeys(acc, k, v);
  }

  /** The lines of the entries `es` after the entries `acc`, up to the end `n` of the block. */
  lemma {:induction false} EntriesRead(L: seq<Line>, i: nat, d: nat, acc: Entries, es: Entries, n: nat)
    requires GoodEntries(es) && UniqueKeys(es) && Fresh(acc, es)
    requires Has(L, i, EntriesLayout(es, d)) && n == i + |EntriesLayout(es, d)| && Ends(L, n, d)
    ensures Block(L, i, d, Dict(acc)) == Built(Map(acc + es), n)
    decreases es, 1
  {
    if es == [] {
      BlockEnds(L, i, d, Dict(acc));
      assert acc + es == acc;
    } else {
      var e, rest := es[0], es[1..];
      var a, b := EntryLayout(e, d), EntriesLayout(rest, d);
      HasSplit(L, i, a, b);
      var j := i + |a|;
      EntryEnds(L, j, d, rest, n);
      EntryRead(L, i, d, acc, e, j);
      FreshStep(acc, es);
      EntriesRead(L, j, d, acc + [e], rest, n);
      AppendHead(acc, es);
    }
  }

  /** After an entry come the next entry's key line, or the end of the block. */
  lemma EntryEnds(L: seq<Line>, j: nat, d: nat, rest: Entries, n: nat)
    requires Has(L, j, EntriesLayout(rest, d)) && n == j + |EntriesLayout(rest, d)| && Ends(L, n, d)
    ensures Ends(L, j, d + 1)
  {
    if rest != [] {
      var b := EntriesLayout(rest, d);
      HasHead(L, j, b);
      assert b[0] == EntryLayout(rest[0], d)[0];
    }
  }

  /** The lines of one entry, up to the line `j` shallower than its value's block. */
  lemma {:induction false} EntryRead(L: seq<Line>, i: nat, d: nat, acc: Entries, e: (string, Value), j: nat)
    requires GoodEntry(e) && e.0 !in Keys(acc)
    requires Has(L, i, EntryLayout(e, d)) && j == i + |EntryLayout(e, d)| && Ends(L, j, d + 1)
    ensures Block(L, i, d, Dict(acc)) == Block(L, j, d, Dict(acc + [e]))
    decreases e, 1
  {
    var lines := EntryLayout(e, d);
    HasHead(L, i, lines);
    if e.1.Map? {
      EntryMapRead(L, i, d, acc, e, j);
    } else if e.1.List? {
      EntryListRead(L, i, d, acc, e, j);
    } else {
      KeyScalarRead(L, i, d, acc, e.0, e.1);
    }
  }

  /** A `k|` line, then the lines of the dict below it. */
  lemma {:induction false} EntryMapRead(L: seq<Line>, i: nat, d: nat, acc: Entries, e: (string, Value), j: nat)
    requires e.1.Map? && GoodEntry(e) && e.0 !in Keys(acc)
    requires i < |L| && L[i] == Line(d, e.0 + "|")
    requires Has(L, i + 1, EntriesLayout(e.1.entries, d + 1)) && j == i + 1 + |EntriesLayout(e.1.entries, d + 1)|
    requires Ends(L, j, d + 1)
    ensures Block(L, i, d, Dict(acc)) == Block(L, j, d, Dict(acc + [e]))
    decreases e, 0
  {
    var es := e.1.entries;
    EntriesRead(L, i + 1, d + 1, [], es, j);
    assert [] + es == es;
    KeyBlockRead(L, i, d, acc, e.0, e.1, j);
  }

  /** A `k|` line, then the `- item` lines of the list below it. */
  lemma EntryListRead(L: seq<Line>, i: nat, d: nat, acc: Entries, e: (string, Value), j: nat)
    requires e.1.List? && GoodEntry(e) && e.0 !in Keys(acc)
    requires i < |L| && L[i] == Line(d, e.0 + "|")
    requires Has(L, i + 1, ListLayout(e.1.items, d + 1)) && j == i + 1 + |ListLayout(e.1.items, d + 1)|
    requires Ends(L, j, d + 1)
    ensures Block(L, i, d, Dict(acc)) == Block(L, j, d, Dict(acc + [e]))
  {
    var items := e.1.items;
    ScalarListLayout(items, d + 1);
    ListRead(L, i + 1, d + 1, items, j);
    KeyBlockRead(L, i, d, acc, e.0, e.1, j);
  }

  /** Reading back the joined lines `serialize_pipe` writes for a surviving
      dict or list gives the value back. */
  lemma PipeRoundTrip(m: Value)
    requires (m.Map? || m.List?) && PipeGood(m)
    ensures PipeDocument(Join(RenderAll(Layout(m, 0)), "\n")) == PipeOk(m)
  {
    var ls := Layout(m, 0);
    LayoutFine(m, 0);
    LinesOfLayout(ls);
    HasRest(ls, 0);
    assert ls[0..] == ls;
    if m.Map? {
      EntriesRead(ls, 0, 0, [], m.entries, |ls|);
      assert [] + m.entries == m.entries;
    } else {
      ListRead(ls, 0, 0, m.items, |ls|);
    }
  }
}
