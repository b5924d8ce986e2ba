/** Small documents that show how `serialize_pipe` and `parse_pipe_format`
    treat empty containers, list items after keys, deeper lines and keys
    after list items. */
module PipeFacts {
  import opened Text
  import opened Values
  import opened Pipe
  import opened PipeRoundTrip

  lemma RenderOne(a: Line)
    ensures RenderAll([a]) == [Render(a)]
  {
    assert [a][1..] == [];
  }

  /** An empty dict and an empty list under a key are both written as `k|`. */
  lemma EmptyChildrenWritten()
    ensures RenderAll(Layout(Map([("k", Map([]))]), 0)) == ["k|"]
    ensures RenderAll(Layout(Map([("k", List([]))]), 0)) == ["k|"]
  {
    assert Spaces(0) == [] && "k" + "|" == "k|";
    RenderOne(Line(0, "k|"));
    assert Render(Line(0, "k|")) == "k|";
    var a, b := [("k", Map([]))], [("k", List([]))];
    assert EntriesLayout([], 1) == [] && ListLayout([], 1) == [];
    assert EntryLayout(a[0], 0) == [Line(0, "k|")];
    assert EntryLayout(b[0], 0) == [Line(0, "k|")];
    assert a[1..] == [] && b[1..] == [];
    assert Layout(Map(a), 0) == [Line(0, "k|")];
    assert Layout(Map(b), 0) == [Line(0, "k|")];
  }

  /** ... and `k|` reads back as a key holding an empty dict, so `{k: []}`
      comes back as `{k: {}}`. */
  lemma EmptyChildrenRead()
    ensures PipeDocument("k|") == PipeOk(Map([("k", Map([]))]))
  {
    var m := Map([("k", Map([]))]);
    EmptyChildrenWritten();
    assert PipeKey("k") by {
      assert StripOfKey: Strip("k") == "k" by {
        assert LStrip("k") == "k" && RStrip("k") == "k";
      }
    }
    assert GoodEntries([("k", Map([]))]) by {
      assert [("k", Map([]))][1..] == [];
    }
    assert UniqueKeys([("k", Map([]))]) by {
      assert [("k", Map([]))][1..] == [];
    }
    PipeRoundTrip.PipeRoundTrip(m);
    assert Join(["k|"], "\n") == "k|";
  }

  /** A `- ` line of the block's level replaces a dict read so far, whatever
      its keys, by a list holding only the coerced item. */
  lemma ItemReplacesDict(L: seq<Line>, i: nat, d: nat, es: Entries)
    requires i < |L| && L[i].level == d && StartsWith(L[i].content, "- ")
    ensures Block(L, i, d, Dict(es)) == Block(L, i + 1, d, Items([Coerce(Strip(L[i].content[2..]))]))
  {
    assert Block(L, i, d, Dict(es)) == ItemLine(L, i, d, Dict(es));
  }

  /** A line deeper than the block that no `key|` line claims is skipped. */
  lemma DeeperLineSkipped(L: seq<Line>, i: nat, d: nat, acc: Acc)
    requires i < |L| && L[i].level > d
    ensures Block(L, i, d, acc) == Block(L, i + 1, d, acc)
  {
  }

  /** Once the block is a list, a line of its level that is not a `- ` item
      raises `TypeError`: a `key|value` line, a `key|` line whatever its
      child block, and a plain line alike. */
  lemma NonItemAfterItem(L: seq<Line>, i: nat, d: nat, items: seq<Value>)
    requires i < |L| && L[i].level == d && !StartsWith(L[i].content, "- ")
    ensures Block(L, i, d, Items(items)) == BuildTypeError
  {
    var acc := Items(items);
    if '|' in L[i].content {
      assert Block(L, i, d, acc) == KeyLine(L, i, d, acc);
    } else {
      assert Block(L, i, d, acc) == TextLine(L, i, d, acc);
    }
  }
}
