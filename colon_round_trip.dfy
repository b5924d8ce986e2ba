/** `parse_colon_format(serialize_colon(m)) == m` for the maps whose keys and
    strings the COLON syntax can carry without escaping. */
module ColonRoundTrip {
  import opened Text
  import opened Numerals
  import opened Values
  import opened Colon
  import opened ColonWriter
  import opened Positions

  /** A key the parser reads back: no `:`, no surrounding whitespace, and
      not starting with the `}` that would close the object. */
  predicate SafeKey(k: string)
  {
    ':' !in k && IsStripped(k) && (k == [] || k[0] != '}')
  }

  /** A string written without escaping that coerces back to itself. */
  predicate SafeStr(t: string)
  {
    !HasReserved(t) && Coerce(t) == Str(t)
  }

  /** The values that survive a COLON round trip. A float is excluded: its
      text as `str` writes it is not part of this model. */
  predicate ColonSafe(v: Value)
    decreases v
  {
    match v
    case Null => true
    case Bool(_) => true
    case Int(_) => true
    case Float(_) => false
    case Str(t) => SafeStr(t)
    case List(items) => AllSafe(items)
    case Map(es) => UniqueKeys(es) && SafeEntries(es)
  }

  /** Every item survives a round trip, and the last one is not the empty
      string: its empty text after the last `,` is read as the closing `]`. */
  predicate AllSafe(items: seq<Value>)
    decreases items
  {
    items == [] || (ColonSafe(items[0]) && (|items| == 1 ==> items[0] != Str([])) && AllSafe(items[1..]))
  }

  /** Every key and every value of the entries survives a round trip. */
  predicate SafeEntries(es: Entries)
    decreases es
  {
    es == [] || (SafeEntry(es[0]) && SafeEntries(es[1..]))
  }

  predicate SafeEntry(e: (string, Value))
    decreases e
  {
    SafeKey(e.0) && ColonSafe(e.1)
  }

  /** A token loop over characters outside `stops` stops at the first one in `stops`. */
  lemma {:induction false} ScanTo(s: string, i: nat, j: nat, stops: set<char>)
    requires i <= j <= |s| && Ends(s, j, stops)
    requires forall k :: i <= k < j ==> s[k] !in stops
    ensures ScanUntil(s, i, stops) == j
    decreases j - i
  {
    if i < j {
      ScanTo(s, i + 1, j, stops);
    }
  }

  lemma LowerKeyword(t: string)
    requires t == "null" || t == "true" || t == "false"
    ensures Lower(t) == t
  {
    var k := 0;
    while k < |t|
      invariant k <= |t| && forall m :: 0 <= m < k ==> Lower(t)[m] == t[m]
    {
      LowerAt(t, k);
      k := k + 1;
    }
  }

  /** What `ScanTo` and coercion need of a scalar's text. */
  predicate GoodScalarText(t: string, v: Value)
  {
    && (t != [] ==> !IsSpace(t[0]))
    && (forall k :: 0 <= k < |t| ==> t[k] !in Reserved)
    && Coerce(Strip(t)) == v
  }

  /** `null`, `true` and `false` read back as themselves. */
  lemma CoerceKeyword(t: string)
    requires t == "null" || t == "true" || t == "false"
    ensures Coerce(t) == if t == "null" then Null else Bool(t == "true")
  {
    StripOfStripped(t);
    LowerKeyword(t);
  }

  lemma KeywordText(v: Value)
    requires v.Null? || v.Bool?
    ensures GoodScalarText(SerializeColon(v), v)
  {
    var t := SerializeColon(v);
    StripOfStripped(t);
    CoerceKeyword(t);
    forall k | 0 <= k < |t| ensures t[k] !in Reserved {
      assert 'a' <= t[k] <= 'z';
    }
  }

  lemma IntText(v: Value)
    requires v.Int?
    ensures GoodScalarText(SerializeColon(v), v)
  {
    var t := IntToString(v.i);
    CoerceIntText(v.i);
    CoerceOfStripped(t);
    IntToStringRoundTrip(v.i);
    forall k | 0 <= k < |t| ensures t[k] !in Reserved {
      if !IsDigits(t) && k > 0 {
        assert t[k] == t[1..][k - 1];
      }
    }
  }

  lemma StrText(v: Value)
    requires v.Str? && SafeStr(v.s)
    ensures GoodScalarText(SerializeColon(v), v)
  {
    var t := v.s;
    CoerceOfStripped(t);
    CoerceCases(t);
    StripIsStripped(t);
    assert forall k :: 0 <= k < |t| ==> t[k] !in Reserved;
  }

  /** The text of a round-trippable scalar: not starting with whitespace, free of reserved characters, and coercing back to the scalar. */
  lemma ScalarText(v: Value)
    requires v.IsScalar() && ColonSafe(v)
    ensures GoodScalarText(SerializeColon(v), v)
  {
    if v.Null? || v.Bool? {
      KeywordText(v);
    } else if v.Int? {
      IntText(v);
    } else {
      StrText(v);
    }
  }

  // The parser on a text laid out token by token: these lemmas know the
  // parser and the layout, not the writer.

  /** A token of characters outside `stops`, followed by a stop or the end
      of the text, is scanned whole. */
  lemma Token(s: string, i: nat, t: string, stops: set<char>)
    requires At(s, i, t) && Ends(s, i + |t|, stops)
    requires forall k :: 0 <= k < |t| ==> t[k] !in stops
    ensures ScanUntil(s, i, stops) == i + |t| && s[i..i + |t|] == t
  {
    forall m | i <= m < i + |t|
      ensures s[m] !in stops
    {
      AtIndex(s, i, t, m - i);
    }
    ScanTo(s, i, i + |t|, stops);
    AtSlice(s, i, t);
  }

  /** `parse_value` at a scalar token. */
  lemma ScalarValue(s: string, i: nat, t: string, v: Value)
    requires At(s, i, t) && GoodScalarText(t, v) && Ends(s, i + |t|, ValueStops)
    ensures ValueAt(s, i) == Done(v, i + |t|)
  {
    if t != [] {
      AtIndex(s, i, t, 0);
    }
    Token(s, i, t, ValueStops);
  }

  /** One item of `parse_list` at a scalar token. */
  lemma ScalarItem(s: string, p: nat, t: string, v: Value)
    requires At(s, p, t) && GoodScalarText(t, v)
    requires p + |t| < |s| && s[p + |t|] in ItemStops
    ensures p < |s| && ItemAt(s, p) == Done(v, p + |t|)
  {
    if t != [] {
      AtIndex(s, p, t, 0);
    }
    Token(s, p, t, ItemStops);
  }

  /** An item that starts right at the cursor and is followed by `c`. */
  predicate ItemThen(s: string, i: nat, x: Value, e: nat, c: char)
  {
    i < |s| && !IsSpace(s[i]) && s[i] != ']'
    && ItemAt(s, i) == Done(x, e) && e < |s| && s[e] == c
  }

  /** An item followed by `,`: the loop goes on after the comma. */
  lemma ItemComma(s: string, i: nat, acc: seq<Value>, x: Value, e: nat)
    requires ItemThen(s, i, x, e, ',')
    ensures ListItems(s, i, acc) == ListItems(s, e + 1, acc + [x])
  {
    ListItemsItem(s, i, acc, i, x, e, e);
  }

  /** An item followed by `]`: the list is complete. */
  lemma ItemLast(s: string, i: nat, acc: seq<Value>, x: Value, e: nat)
    requires ItemThen(s, i, x, e, ']')
    ensures ListItems(s, i, acc) == Done(List(acc + [x]), e + 1)
  {
    ListItemsItem(s, i, acc, i, x, e, e);
    ListItemsClose(s, e, acc + [x]);
  }

  /** A key at position `i`, followed by `:`: whitespace skipping stays
      put, it is not a closing `}`, and it is read back whole. */
  lemma KeyRoundTrip(s: string, i: nat, k: string)
    requires SafeKey(k) && At(s, i, k) && i + |k| < |s| && s[i + |k|] == ':'
    ensures SkipWs(s, i) == i && s[i] != '}'
    ensures KeyAt(s, i) == k && ValueStart(s, i) == i + |k| + 1
  {
    Token(s, i, k, {':'});
    StripOfStripped(k);
    if k != [] {
      AtIndex(s, i, k, 0);
    }
  }

  /** A pair `k:` whose value is read as `v` up to `end`, followed by `;` or
      `}`: reading it appends the fresh key `k` to `acc`. */
  lemma PairRead(s: string, i: nat, acc: Entries, k: string, v: Value, end: nat)
    requires SafeKey(k) && k !in Keys(acc)
    requires At(s, i, k) && i + |k| < |s| && s[i + |k|] == ':'
    requires ValueAt(s, i + |k| + 1) == Done(v, end)
    requires end < |s| && s[end] in {';', '}'}
    ensures SkipWs(s, i) == i && s[i] != '}'
    ensures PairAt(s, i, acc) == Read(acc + [(k, v)], end)
  {
    KeyRoundTrip(s, i, k);
    PairAtRead(s, i, acc, v, end);
    assert SkipWs(s, end) == end;
    PutKeys(acc, k, v);
  }

  // The layout of the writer's text: these lemmas know the writer and
  // where its text sits, not the parser.

  /** The first character of a round-trippable value's text; only the empty
      string has an empty text. */
  lemma FirstChar(v: Value)
    requires ColonSafe(v)
    ensures var t := SerializeColon(v);
      && (t == [] ==> v == Str([]))
      && (t != [] ==> !IsSpace(t[0]) && t[0] != ']' && t[0] != '}')
  {
    if v.IsScalar() {
      ScalarText(v);
    }
  }

  /** A list's text: `[`, then the items' text and `]`. */
  lemma ListLayout(s: string, i: nat, v: Value)
    requires v.List? && At(s, i, SerializeColon(v))
    ensures i < |s| && s[i] == '[' && At(s, i + 1, ItemsText(v.items) + "]")
    ensures |SerializeColon(v)| == |ItemsText(v.items)| + 2
  {
    assert SerializeColon(v) == "[" + (ItemsText(v.items) + "]");
    AtConcat(s, i, "[", ItemsText(v.items) + "]");
    AtIndex(s, i, "[", 0);
  }

  /** A dict's text: `{`, then the entries' text and `}`. */
  lemma ObjectLayout(s: string, i: nat, v: Value)
    requires v.Map? && At(s, i, SerializeColon(v))
    ensures i < |s| && s[i] == '{' && At(s, i + 1, EntriesText(v.entries) + "}")
    ensures |SerializeColon(v)| == |EntriesText(v.entries)| + 2
  {
    assert SerializeColon(v) == "{" + (EntriesText(v.entries) + "}");
    AtConcat(s, i, "{", EntriesText(v.entries) + "}");
    AtIndex(s, i, "{", 0);
  }

  /** The first item's text, then `]` after the last item or `,` and the
      rest of the items' text. */
  lemma ItemsLayout(s: string, i: nat, items: seq<Value>)
    requires items != [] && At(s, i, ItemsText(items) + "]")
    ensures var e := i + |SerializeColon(items[0])|;
      && At(s, i, SerializeColon(items[0])) && e < |s|
      && s[e] == (if |items| == 1 then ']' else ',')
      && (|items| == 1 ==> |ItemsText(items)| == e - i)
      && (|items| > 1 ==> At(s, e + 1, ItemsText(items[1..]) + "]")
                          && |ItemsText(items)| == e - i + 1 + |ItemsText(items[1..])|)
  {
    var t := SerializeColon(items[0]);
    if |items| == 1 {
      assert ItemsText(items) + "]" == t + "]";
      AtConcat(s, i, t, "]");
      AtIndex(s, i + |t|, "]", 0);
    } else {
      var rest := ItemsText(items[1..]) + "]";
      assert ItemsText(items) + "]" == t + ("," + rest);
      AtConcat(s, i, t, "," + rest);
      AtConcat(s, i + |t|, ",", rest);
      AtIndex(s, i + |t|, ",", 0);
    }
  }

  /** The first entry's text, then `}` after the last entry or `;` and the
      rest of the entries' text. */
  lemma EntriesLayout(s: string, i: nat, es: Entries)
    requires es != [] && At(s, i, EntriesText(es) + "}")
    ensures var w := i + |EntryText(es[0])|;
      && At(s, i, EntryText(es[0])) && w < |s|
      && s[w] == (if |es| == 1 then '}' else ';')
      && (|es| == 1 ==> |EntriesText(es)| == w - i)
      && (|es| > 1 ==> At(s, w + 1, EntriesText(es[1..]) + "}")
                       && |EntriesText(es)| == w - i + 1 + |EntriesText(es[1..])|)
  {
    var t := EntryText(es[0]);
    if |es| == 1 {
      assert EntriesText(es) + "}" == t + "}";
      AtConcat(s, i, t, "}");
      AtIndex(s, i + |t|, "}", 0);
    } else {
      var rest := EntriesText(es[1..]) + "}";
      assert EntriesText(es) + "}" == t + (";" + rest);
      AtConcat(s, i, t, ";" + rest);
      AtConcat(s, i + |t|, ";", rest);
      AtIndex(s, i + |t|, ";", 0);
    }
  }

  /** The key, the `:` and the value's text in the text of a pair. */
  lemma EntryLayout(s: string, i: nat, e: (string, Value))
    requires At(s, i, EntryText(e))
    ensures At(s, i, e.0) && i + |e.0| < |s| && s[i + |e.0|] == ':'
    ensures At(s, i + |e.0| + 1, SerializeColon(e.1))
    ensures |EntryText(e)| == |e.0| + 1 + |SerializeColon(e.1)|
  {
    var k, tv := e.0, SerializeColon(e.1);
    assert EntryText(e) == k + (":" + tv);
    AtConcat(s, i, k, ":" + tv);
    AtConcat(s, i + |k|, ":", tv);
    AtIndex(s, i + |k|, ":", 0);
  }

  // The two together, by induction on the value. Each step keeps the
  // writer's facts apart from the parser's, inside `assert ... by`.

  /** `parse_value` at the text of a round-trippable value, as written in an
      object, reads the value back and stops right after it. */
  lemma {:induction false} ValueRoundTrip(s: string, i: nat, v: Value)
    requires ColonSafe(v) && At(s, i, SerializeColon(v))
    requires v.IsScalar() ==> Ends(s, i + |SerializeColon(v)|, ValueStops)
    ensures ValueAt(s, i) == Done(v, i + |SerializeColon(v)|)
    decreases v, 2
  {
    if v.IsScalar() {
      assert GoodScalarText(SerializeColon(v), v) by {
        ScalarText(v);
      }
      ScalarValue(s, i, SerializeColon(v), v);
    } else if v.List? {
      ListRoundTrip(s, i, v);
    } else {
      ObjectRoundTrip(s, i, v);
    }
  }

  /** One item of `parse_list` at the text of a round-trippable value. */
  lemma {:induction false} ItemRoundTrip(s: string, p: nat, v: Value)
    requires ColonSafe(v) && At(s, p, SerializeColon(v))
    requires v.IsScalar() ==> p + |SerializeColon(v)| < |s| && s[p + |SerializeColon(v)|] in ItemStops
    ensures p < |s| && ItemAt(s, p) == Done(v, p + |SerializeColon(v)|)
    decreases v, 2
  {
    if v.IsScalar() {
      assert GoodScalarText(SerializeColon(v), v) by {
        ScalarText(v);
      }
      ScalarItem(s, p, SerializeColon(v), v);
    } else if v.List? {
      ListRoundTrip(s, p, v);
    } else {
      ObjectRoundTrip(s, p, v);
    }
  }

  /** `parse_list` at the text of a round-trippable list. */
  lemma {:induction false} ListRoundTrip(s: string, i: nat, v: Value)
    requires v.List? && ColonSafe(v) && At(s, i, SerializeColon(v))
    ensures i < |s| && s[i] == '[' && ListAt(s, i) == Done(v, i + |SerializeColon(v)|)
    decreases v, 1
  {
    ListLayout(s, i, v);
    assert ListItems(s, i + 1, []) == Done(List(v.items), i + 1 + |ItemsText(v.items)| + 1) by {
      ItemsRoundTrip(s, i + 1, [], v.items);
      assert [] + v.items == v.items;
    }
  }

  /** `parse_object` at the text of a round-trippable dict. */
  lemma {:induction false} ObjectRoundTrip(s: string, i: nat, v: Value)
    requires v.Map? && ColonSafe(v) && At(s, i, SerializeColon(v))
    ensures i < |s| && s[i] == '{' && ObjectAt(s, i) == Done(v, i + |SerializeColon(v)|)
    decreases v, 1
  {
    ObjectLayout(s, i, v);
    assert ObjectEntries(s, i + 1, []) == Done(Map(v.entries), i + 1 + |EntriesText(v.entries)| + 1) by {
      EntriesRoundTrip(s, i + 1, [], v.entries);
      assert [] + v.entries == v.entries;
    }
  }

  /** The loop of `parse_list` from `i`, after the items `acc`, reads
      `items` and the closing `]`, and stops right after it. */
  predicate ItemsRead(s: string, i: nat, acc: seq<Value>, items: seq<Value>)
  {
    i <= |s| && ListItems(s, i, acc) == Done(List(acc + items), i + |ItemsText(items)| + 1)
  }

  /** The loop of `parse_list` over the comma-joined texts of `items` and the
      closing `]`, after the items `acc`. */
  lemma {:induction false} ItemsRoundTrip(s: string, i: nat, acc: seq<Value>, items: seq<Value>)
    requires AllSafe(items) && At(s, i, ItemsText(items) + "]")
    ensures ItemsRead(s, i, acc, items)
    decreases items, 2
  {
    if items == [] {
      ItemsNone(s, i, acc, items);
    } else {
      var e := i + |SerializeColon(items[0])|;
      if |items| == 1 {
        ItemsLast(s, i, acc, items, e);
      } else {
        ItemsNext(s, i, acc, items, e);
        ItemsRoundTrip(s, e + 1, acc + [items[0]], items[1..]);
      }
    }
  }

  /** No items: the `]` closes the list. */
  lemma ItemsNone(s: string, i: nat, acc: seq<Value>, items: seq<Value>)
    requires items == [] && At(s, i, ItemsText(items) + "]")
    ensures ItemsRead(s, i, acc, items)
  {
    AtIndex(s, i, ItemsText(items) + "]", 0);
    ListItemsClose(s, i, acc);
    assert acc + items == acc;
  }

  /** The last pass of the loop of `parse_list`: the item and the closing `]`. */
  lemma {:induction false} ItemsLast(s: string, i: nat, acc: seq<Value>, items: seq<Value>, e: nat)
    requires |items| == 1 && AllSafe(items)
    requires At(s, i, ItemsText(items) + "]") && e == i + |SerializeColon(items[0])|
    ensures ItemsRead(s, i, acc, items)
    decreases items, 1
  {
    assert At(s, i, SerializeColon(items[0])) && e < |s| && s[e] == ']' && |ItemsText(items)| == e - i by {
      ItemsLayout(s, i, items);
    }
    assert ItemThen(s, i, items[0], e, ']') by {
      HeadItem(s, i, items, e);
    }
    ItemLast(s, i, acc, items[0], e);
    AppendHead(acc, items);
  }

  /** A pass of the loop of `parse_list` over an item followed by `,`: the
      loop goes on with the rest of `items`. */
  lemma {:induction false} ItemsNext(s: string, i: nat, acc: seq<Value>, items: seq<Value>, e: nat)
    requires |items| > 1 && AllSafe(items)
    requires At(s, i, ItemsText(items) + "]") && e == i + |SerializeColon(items[0])|
    ensures AllSafe(items[1..]) && At(s, e + 1, ItemsText(items[1..]) + "]")
    ensures ItemsRead(s, e + 1, acc + [items[0]], items[1..]) ==> ItemsRead(s, i, acc, items)
    decreases items, 1
  {
    assert At(s, i, SerializeColon(items[0])) && e < |s| && s[e] == ','
      && At(s, e + 1, ItemsText(items[1..]) + "]")
      && |ItemsText(items)| == e - i + 1 + |ItemsText(items[1..])| by {
      ItemsLayout(s, i, items);
    }
    assert ItemThen(s, i, items[0], e, ',') by {
      HeadItem(s, i, items, e);
    }
    assert ListItems(s, i, acc) == ListItems(s, e + 1, acc + [items[0]]) by {
      ItemComma(s, i, acc, items[0], e);
    }
    assert acc + [items[0]] + items[1..] == acc + items by {
      AppendHead(acc, items);
    }
  }

  /** The first of `items` starts at the cursor, is not a closing `]`, and is
      read back whole; an empty string there is followed by the `,` of a
      later item. */
  lemma {:induction false} HeadItem(s: string, i: nat, items: seq<Value>, e: nat)
    requires items != [] && AllSafe(items)
    requires At(s, i, SerializeColon(items[0])) && e == i + |SerializeColon(items[0])|
    requires e < |s| && s[e] == (if |items| == 1 then ']' else ',')
    ensures i < |s| && !IsSpace(s[i]) && s[i] != ']'
    ensures ItemAt(s, i) == Done(items[0], e)
    decreases items, 0
  {
    var x, t := items[0], SerializeColon(items[0]);
    assert ColonSafe(x) && (|items| == 1 ==> x != Str([]));
    assert !IsSpace(s[i]) && s[i] != ']' by {
      FirstChar(x);
      if t != [] {
        AtIndex(s, i, t, 0);
      }
    }
    assert ItemAt(s, i) == Done(x, e) by {
      ItemRoundTrip(s, i, x);
    }
  }

  /** The loop of `parse_object` over the `;`-joined entries `es` and the
      closing `}`, after the entries `acc`. */
  lemma {:induction false} EntriesRoundTrip(s: string, i: nat, acc: Entries, es: Entries)
    requires SafeEntries(es) && UniqueKeys(es) && Fresh(acc, es)
    requires At(s, i, EntriesText(es) + "}")
    ensures ObjectEntries(s, i, acc) == Done(Map(acc + es), i + |EntriesText(es)| + 1)
    decreases es, 2
  {
    if es == [] {
      assert ObjectEntries(s, i, acc) == Done(Map(acc), i + 1) by {
        AtIndex(s, i, EntriesText(es) + "}", 0);
        ObjectEntriesClose(s, i, acc);
      }
      assert acc + es == acc;
    } else {
      var w := i + |EntryText(es[0])|;
      if |es| == 1 {
        EntriesLast(s, i, acc, es, w);
      } else {
        EntriesNext(s, i, acc, es, w);
        EntriesRoundTrip(s, w + 1, acc + [es[0]], es[1..]);
      }
    }
  }

  /** The last pass of the loop of `parse_object`: the pair and the closing `}`. */
  lemma {:induction false} EntriesLast(s: string, i: nat, acc: Entries, es: Entries, w: nat)
    requires |es| == 1 && SafeEntries(es) && Fresh(acc, es)
    requires At(s, i, EntriesText(es) + "}") && w == i + |EntryText(es[0])|
    ensures ObjectEntries(s, i, acc) == Done(Map(acc + es), i + |EntriesText(es)| + 1)
    decreases es, 1
  {
    var e := es[0];
    assert At(s, i, EntryText(e)) && w < |s| && s[w] == '}' && |EntriesText(es)| == w - i by {
      EntriesLayout(s, i, es);
    }
    assert PairAt(s, i, acc) == Read(acc + [e], w) && SkipWs(s, i) == i && s[i] != '}' by {
      EntryRoundTrip(s, i, e, acc);
    }
    ObjectEntriesMember(s, i, acc, i, acc + [e], w);
    ObjectEntriesClose(s, w, acc + [e]);
    AppendHead(acc, es);
  }

  /** A pass of the loop of `parse_object` over a pair followed by `;`: the
      loop goes on with the rest of `es`, whose keys are still fresh. */
  lemma {:induction false} EntriesNext(s: string, i: nat, acc: Entries, es: Entries, w: nat)
    requires |es| > 1 && SafeEntries(es) && UniqueKeys(es) && Fresh(acc, es)
    requires At(s, i, EntriesText(es) + "}") && w == i + |EntryText(es[0])|
    ensures SafeEntries(es[1..]) && UniqueKeys(es[1..]) && Fresh(acc + [es[0]], es[1..])
    ensures At(s, w + 1, EntriesText(es[1..]) + "}")
    ensures ObjectEntries(s, w + 1, acc + [es[0]]) == Done(Map(acc + [es[0]] + es[1..]), w + 1 + |EntriesText(es[1..])| + 1)
      ==> ObjectEntries(s, i, acc) == Done(Map(acc + es), i + |EntriesText(es)| + 1)
    decreases es, 1
  {
    var e := es[0];
    assert At(s, i, EntryText(e)) && w < |s| && s[w] == ';' && At(s, w + 1, EntriesText(es[1..]) + "}")
      && |EntriesText(es)| == w - i + 1 + |EntriesText(es[1..])| by {
      EntriesLayout(s, i, es);
    }
    assert PairAt(s, i, acc) == Read(acc + [e], w) && SkipWs(s, i) == i && s[i] != '}' by {
      EntryRoundTrip(s, i, e, acc);
    }
    ObjectEntriesMember(s, i, acc, i, acc + [e], w);
    FreshStep(acc, es);
    AppendHead(acc, es);
  }

  /** One `k:v` pair at position `i`, followed by `;` or `}`: whitespace
      skipping stays put, the pair is not a closing `}`, and reading it
      appends it to `acc`. */
  lemma {:induction false} EntryRoundTrip(s: string, i: nat, e: (string, Value), acc: Entries)
    requires SafeKey(e.0) && ColonSafe(e.1) && e.0 !in Keys(acc)
    requires At(s, i, EntryText(e))
    requires i + |EntryText(e)| < |s| && s[i + |EntryText(e)|] in {';', '}'}
    ensures SkipWs(s, i) == i && s[i] != '}'
    ensures PairAt(s, i, acc) == Read(acc + [e], i + |EntryText(e)|)
    decreases e, 0
  {
    var k, v := e.0, e.1;
    var j, end := i + |k| + 1, i + |EntryText(e)|;
    assert At(s, i, k) && i + |k| < |s| && s[i + |k|] == ':' by {
      EntryLayout(s, i, e);
    }
    assert ValueAt(s, j) == Done(v, end) by {
      EntryLayout(s, i, e);
      ValueRoundTrip(s, j, v);
    }
    PairRead(s, i, acc, k, v, end);
  }

  /** `parse_colon_format(serialize_colon(m)) == m` for every round-trippable dict. */
  lemma ColonRoundTrip(m: Value)
    requires m.Map? && ColonSafe(m)
    ensures Document(SerializeColon(m)) == Parsed(m)
  {
    var s := SerializeColon(m);
    AtSuffix(s, 0);
    assert s[0..] == s;
    ObjectRoundTrip(s, 0, m);
  }

  /** The dict whose list ends with an empty string, as written: nothing
      follows the last `,`. */
  lemma TrailingEmptyText()
    ensures SerializeColon(Map([("k", List([Str("a"), Str([])]))])) == "{k:[a,]}"
  {
    assert ColonWriter.StrText("a") == "a" by {
      assert !HasReserved("a") by { assert "a"[0] !in Reserved; }
    }
    assert ItemsText([Str("a"), Str([])]) == "a,";
  }

  /** `parse_list` on `[a,]` closes the list after one item. */
  lemma TrailingEmptyRead(s: string)
    requires s == "{k:[a,]}"
    ensures ListItems(s, 4, []) == Done(List([Coerce(Strip(s[4..5]))]), 7)
  {
    var v := Coerce(Strip(s[4..5]));
    assert ItemAt(s, 4) == Done(v, 5) by {
      assert ScanUntil(s, 4, ItemStops) == 5 by { assert s[4] !in ItemStops && s[5] in ItemStops; }
    }
    assert SkipWs(s, 4) == 4 && SkipWs(s, 5) == 5 && SkipWs(s, 6) == 6;
    ListItemsItem(s, 4, [], 4, v, 5, 5);
    ListItemsClose(s, 6, [v]);
  }

  /** `parse_colon_format` on `{k:[a,]}`: one key, whose list has one item. */
  lemma TrailingEmptyDocument(s: string)
    requires s == "{k:[a,]}"
    ensures Document(s) == Parsed(Map(Put([], KeyAt(s, 1), List([Coerce(Strip(s[4..5]))]))))
  {
    var list := List([Coerce(Strip(s[4..5]))]);
    var obj := Put([], KeyAt(s, 1), list);
    assert ValueStart(s, 1) == 3 by {
      assert ScanUntil(s, 1, {':'}) == 2 by { assert s[1] !in {':'} && s[2] in {':'}; }
    }
    assert ValueAt(s, 3) == Done(list, 7) by {
      TrailingEmptyRead(s);
      assert SkipWs(s, 3) == 3;
    }
    PairAtRead(s, 1, [], list, 7);
    assert SkipWs(s, 7) == 7;
    assert SkipWs(s, 0) == 0 && SkipWs(s, 1) == 1;
    ObjectEntriesMember(s, 1, [], 1, obj, 7);
    ObjectEntriesClose(s, 7, obj);
  }

  /** The list item `AllSafe` leaves out: an empty string as the last item is
      written as nothing after the last `,`, which `parse_list` reads as the
      end of the list, so the dict comes back with a shorter list. */
  lemma TrailingEmptyItemLost()
    ensures var m := Map([("k", List([Str("a"), Str([])]))]);
      SerializeColon(m) == "{k:[a,]}" && Document(SerializeColon(m)) != Parsed(m)
  {
    TrailingEmptyText();
    TrailingEmptyDocument("{k:[a,]}");
  }
}
