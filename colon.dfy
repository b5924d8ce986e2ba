/** The COLON syntax (`{k:v;...}`, `[a,b]`): the cursor-driven parser
    `_ColonParser`, `parse_colon_format` and `serialize_colon`.

    The parser is specified by functions over the text and a cursor position
    (ValueAt, ObjectAt, ObjectEntries, ListAt, ListItems, Document), one per
    method or loop of the source; the class ColonParser runs the same steps
    on a mutable cursor and is proved to agree with them. */
module Colon {
  import opened Text
  import opened Numerals
  import opened Values

  /** The end of one parse step: the value read and the cursor after it, or
      the parser loops forever (an unterminated list). */
  datatype Step = Done(v: Value, next: nat) | Diverges

  /** The end of one `key:value` pair: the dict with the pair assigned and the
      cursor after the whitespace that follows the value. */
  datatype PairStep = Read(obj: Entries, w: nat) | Stuck

  /** What `parse_colon_format` does with a whole text. */
  datatype Outcome = Parsed(value: Value) | Loops

  /** The characters that end a scalar read by `parse_value`. */
  const ValueStops: set<char> := {';', '}', ']'}
  /** The characters that end a scalar list item in `parse_list`. */
  const ItemStops: set<char> := {',', ']'}

  /** The cursor after `_consume_whitespace`. */
  function SkipWs(s: string, i: nat): (j: nat)
    requires i <= |s|
    ensures i <= j <= |s| && (j < |s| ==> !IsSpace(s[j]))
    decreases |s| - i
  {
    if i < |s| && IsSpace(s[i]) then SkipWs(s, i + 1) else i
  }

  /** `_consume_whitespace` skips only whitespace. */
  lemma {:induction false} SkipWsSpaces(s: string, i: nat, k: nat)
    requires i <= |s| && i <= k < SkipWs(s, i)
    ensures IsSpace(s[k])
    decreases |s| - i
  {
    if k > i {
      SkipWsSpaces(s, i + 1, k);
    }
  }

  /** The cursor after a token loop that stops at a character of `stops` or
      at the end of the text. */
  function ScanUntil(s: string, i: nat, stops: set<char>): (j: nat)
    requires i <= |s|
    ensures i <= j <= |s| && (j < |s| ==> s[j] in stops)
    decreases |s| - i
  {
    if i < |s| && s[i] !in stops then ScanUntil(s, i + 1, stops) else i
  }

  /** A token loop stops at the first character of `stops`. */
  lemma {:induction false} ScanUntilFirst(s: string, i: nat, stops: set<char>, k: nat)
    requires i <= |s| && i <= k < ScanUntil(s, i, stops)
    ensures s[k] !in stops
    decreases |s| - i
  {
    if k > i {
      ScanUntilFirst(s, i + 1, stops, k);
    }
  }

  /** The key of a `key:value` pair that starts at `p`: the stripped text up
      to the first `:` or the end. */
  function KeyAt(s: string, p: nat): string
    requires p <= |s|
  {
    Strip(s[p..ScanUntil(s, p, {':'})])
  }

  /** Where the value of a pair that starts at `p` is read from: after the
      `:`, or at the end when there is none. */
  function ValueStart(s: string, p: nat): (r: nat)
    requires p <= |s|
    ensures p <= r <= |s| && (p < |s| ==> p < r)
  {
    var q := ScanUntil(s, p, {':'});
    if q < |s| then q + 1 else q
  }

  /** `parse_value` from cursor `i`. */
  function ValueAt(s: string, i: nat): (r: Step)
    requires i <= |s|
    ensures r.Done? ==> i <= r.next <= |s|
    decreases |s| - i, 1
  {
    var j := SkipWs(s, i);
    if j < |s| && s[j] == '{' then ObjectAt(s, j)
    else if j < |s| && s[j] == '[' then ListAt(s, j)
    else
      var k := ScanUntil(s, j, ValueStops);
      Done(Coerce(Strip(s[j..k])), k)
  }

  /** `parse_object` with the cursor on `{`. */
  function ObjectAt(s: string, i: nat): (r: Step)
    requires i < |s| && s[i] == '{'
    ensures r.Done? ==> i < r.next <= |s| && r.v.Map?
    decreases |s| - i, 0
  {
    ObjectEntries(s, i + 1, [])
  }

  /** The loop of `parse_object` from cursor `i`, with the entries read so far. */
  function ObjectEntries(s: string, i: nat, obj: Entries): (r: Step)
    requires i <= |s|
    ensures r.Done? ==> i <= r.next <= |s| && r.v.Map?
    decreases |s| - i, 3
  {
    var p := SkipWs(s, i);
    if p < |s| && s[p] == '}' then Done(Map(obj), p + 1)
    else
      match PairAt(s, p, obj)
      case Stuck => Diverges
      case Read(obj', w) =>
        if w < |s| && s[w] == ';' then ObjectEntries(s, w + 1, obj')
        else if w == |s| then Done(Map(obj'), w)
        else ObjectEntries(s, w, obj')
  }

  /** The body shared by `parse_object` and `parse_colon_format` for one
      pair that starts at `p`: the key up to `:`, the value after it, the
      assignment, and the whitespace after the value. */
  function PairAt(s: string, p: nat, obj: Entries): (r: PairStep)
    requires p <= |s|
    ensures r.Read? ==> p <= r.w <= |s| && (p < |s| ==> p < r.w)
    decreases |s| - p, 2
  {
    match ValueAt(s, ValueStart(s, p))
    case Diverges => Stuck
    case Done(v, e) => Read(Put(obj, KeyAt(s, p), v), SkipWs(s, e))
  }

  /** `parse_list` with the cursor on `[`. */
  function ListAt(s: string, i: nat): (r: Step)
    requires i < |s| && s[i] == '['
    ensures r.Done? ==> i < r.next <= |s| && r.v.List?
    decreases |s| - i, 0
  {
    ListItems(s, i + 1, [])
  }

  /** One item of `parse_list` with the cursor on its first character: an
      object, a list, or a scalar up to `,`, `]` or the end. */
  function ItemAt(s: string, p: nat): (r: Step)
    requires p < |s|
    ensures r.Done? ==> p <= r.next <= |s| && (r.next == p ==> s[p] in ItemStops)
    decreases |s| - p, 1
  {
    if s[p] == '{' then ObjectAt(s, p)
    else if s[p] == '[' then ListAt(s, p)
    else
      var k := ScanUntil(s, p, ItemStops);
      Done(Coerce(Strip(s[p..k])), k)
  }

  /** The loop of `parse_list` from cursor `i`, with the items read so far.
      Reaching the end of the text at the head of the loop never ends: the
      loop appends an empty string and comes back to the same place. */
  function ListItems(s: string, i: nat, items: seq<Value>): (r: Step)
    requires i <= |s|
    ensures r.Done? ==> i <= r.next <= |s| && r.v.List?
    decreases |s| - i, 2
  {
    var p := SkipWs(s, i);
    if p < |s| && s[p] == ']' then Done(List(items), p + 1)
    else if p == |s| then Diverges
    else
      match ItemAt(s, p)
      case Diverges => Diverges
      case Done(v, e) =>
        var w := SkipWs(s, e);
        if w < |s| && s[w] == ',' then ListItems(s, w + 1, items + [v])
        else ListItems(s, w, items + [v])
  }

  /** `parse_colon_format`: a text whose first non-blank character is `{` is
      one object (what follows it is ignored); otherwise it is read as
      `key:value` pairs separated by `;`. */
  function Document(s: string): (r: Outcome)
    ensures r.Parsed? ==> r.value.Map?
  {
    var p := SkipWs(s, 0);
    if p < |s| && s[p] == '{' then
      match ObjectAt(s, p)
      case Done(v, _) => Parsed(v)
      case Diverges => Loops
    else TopEntries(s, p, [])
  }

  /** The loop of `parse_colon_format` for a text without a leading `{`. */
  function TopEntries(s: string, i: nat, obj: Entries): (r: Outcome)
    requires i <= |s|
    ensures r.Parsed? ==> r.value.Map?
    decreases |s| - i
  {
    if i == |s| then Parsed(Map(obj))
    else
      match PairAt(s, SkipWs(s, i), obj)
      case Stuck => Loops
      case Read(obj', w) =>
        if w < |s| && s[w] == ';' then TopEntries(s, w + 1, obj')
        else Parsed(Map(obj'))
  }

  /** A pair whose value is read as `v`, ending at `e`. */
  lemma PairAtRead(s: string, p: nat, obj: Entries, v: Value, e: nat)
    requires p <= |s| && ValueAt(s, ValueStart(s, p)) == Done(v, e)
    ensures PairAt(s, p, obj) == Read(Put(obj, KeyAt(s, p), v), SkipWs(s, e))
  {
  }

  /** One member of `parse_object`'s loop: the pair, and what the next
      non-blank character decides. */
  lemma ObjectEntriesMember(s: string, i: nat, obj: Entries, p: nat, obj': Entries, w: nat)
    requires i <= |s| && p == SkipWs(s, i) && !(p < |s| && s[p] == '}')
    requires PairAt(s, p, obj) == Read(obj', w)
    ensures w < |s| && s[w] == ';' ==> ObjectEntries(s, i, obj) == ObjectEntries(s, w + 1, obj')
    ensures w == |s| ==> ObjectEntries(s, i, obj) == Done(Map(obj'), w)
    ensures w < |s| && s[w] != ';' ==> ObjectEntries(s, i, obj) == ObjectEntries(s, w, obj')
  {
  }

  /** A pass of `parse_object`'s loop is possible wherever the loop ends:
      at the closing `}` or at a pair whose value does not diverge. */
  lemma ObjectEntriesHead(s: string, i: nat, obj: Entries)
    requires i <= |s| && ObjectEntries(s, i, obj).Done?
    ensures var p := SkipWs(s, i); !(p < |s| && s[p] == '}') ==> PairAt(s, p, obj).Read?
  {
  }

  /** One pass of `parse_object`'s loop from cursor `i`, as `ObjectMember`
      performs it: the loop ends with the dict `obj'` at `j`, or goes on there. */
  lemma ObjectEntriesPass(s: string, i: nat, obj: Entries, obj': Entries, j: nat, finished: bool)
    requires i <= |s|
    requires var p := SkipWs(s, i); p < |s| && s[p] == '}' ==> finished && obj' == obj && j == p + 1
    requires var p := SkipWs(s, i); !(p < |s| && s[p] == '}') ==>
      var r := PairAt(s, p, obj);
      && r.Read? && obj' == r.obj && (finished <==> r.w == |s|)
      && j == (if r.w < |s| && s[r.w] == ';' then r.w + 1 else r.w)
    ensures finished ==> ObjectEntries(s, i, obj) == Done(Map(obj'), j)
    ensures !finished ==> j <= |s| && ObjectEntries(s, i, obj) == ObjectEntries(s, j, obj')
  {
    var p := SkipWs(s, i);
    if p < |s| && s[p] == '}' {
      ObjectEntriesClose(s, i, obj);
    } else {
      var w := PairAt(s, p, obj).w;
      ObjectEntriesMember(s, i, obj, p, obj', w);
      if w < |s| && s[w] == ';' {
        assert j == w + 1;
      } else {
        assert j == w;
      }
    }
  }

  /** `parse_object`'s loop ends at a closing `}`. */
  lemma ObjectEntriesClose(s: string, i: nat, obj: Entries)
    requires i <= |s| && SkipWs(s, i) < |s| && s[SkipWs(s, i)] == '}'
    ensures ObjectEntries(s, i, obj) == Done(Map(obj), SkipWs(s, i) + 1)
  {
  }

  /** A pass of `parse_list`'s loop is possible wherever the loop ends:
      never at the end of the text, and at an item that does not diverge. */
  lemma ListItemsHead(s: string, i: nat, items: seq<Value>)
    requires i <= |s| && ListItems(s, i, items).Done?
    ensures var p := SkipWs(s, i); p < |s| && (s[p] != ']' ==> ItemAt(s, p).Done?)
  {
  }

  /** A top-level pair of a text that parses does not diverge in its value. */
  lemma TopEntriesValue(s: string, i: nat, obj: Entries, p: nat)
    requires i < |s| && p == SkipWs(s, i)
    requires TopEntries(s, i, obj).Parsed?
    ensures PairAt(s, p, obj).Read?
  {
  }

  /** One item of `parse_list`'s loop, read as `e` with value `v`. */
  lemma ListItemsItem(s: string, i: nat, items: seq<Value>, p: nat, v: Value, e: nat, w: nat)
    requires i <= |s| && p == SkipWs(s, i) && p < |s| && s[p] != ']'
    requires ItemAt(s, p) == Done(v, e)
    requires w == SkipWs(s, e)
    ensures w < |s| && s[w] == ',' ==> ListItems(s, i, items) == ListItems(s, w + 1, items + [v])
    ensures !(w < |s| && s[w] == ',') ==> ListItems(s, i, items) == ListItems(s, w, items + [v])
  {
  }

  /** One pass of `parse_list`'s loop from cursor `i`, as `ListMember`
      performs it: the loop ends with the items `items'` at `j`, or goes on there. */
  lemma ListItemsPass(s: string, i: nat, items: seq<Value>, items': seq<Value>, j: nat, finished: bool)
    requires i <= |s| && SkipWs(s, i) < |s|
    requires var p := SkipWs(s, i); s[p] == ']' ==> finished && items' == items && j == p + 1
    requires var p := SkipWs(s, i); s[p] != ']' ==>
      var r := ItemAt(s, p);
      && r.Done? && !finished && items' == items + [r.v]
      && var w := SkipWs(s, r.next);
        j == (if w < |s| && s[w] == ',' then w + 1 else w)
    ensures finished ==> ListItems(s, i, items) == Done(List(items'), j)
    ensures !finished ==> j <= |s| && ListItems(s, i, items) == ListItems(s, j, items')
  {
    var p := SkipWs(s, i);
    if s[p] == ']' {
      ListItemsClose(s, i, items);
    } else {
      var r := ItemAt(s, p);
      var w := SkipWs(s, r.next);
      ListItemsItem(s, i, items, p, r.v, r.next, w);
      if w < |s| && s[w] == ',' {
        assert j == w + 1;
      } else {
        assert j == w;
      }
    }
  }

  /** `parse_list`'s loop ends at a closing `]`. */
  lemma ListItemsClose(s: string, i: nat, items: seq<Value>)
    requires i <= |s| && SkipWs(s, i) < |s| && s[SkipWs(s, i)] == ']'
    ensures ListItems(s, i, items) == Done(List(items), SkipWs(s, i) + 1)
  {
  }

  /** One `key:value` pair of `parse_colon_format`'s loop. */
  lemma TopEntriesMember(s: string, i: nat, obj: Entries, obj': Entries, w: nat)
    requires i < |s| && PairAt(s, SkipWs(s, i), obj) == Read(obj', w)
    ensures w < |s| && s[w] == ';' ==> TopEntries(s, i, obj) == TopEntries(s, w + 1, obj')
    ensures !(w < |s| && s[w] == ';') ==> TopEntries(s, i, obj) == Parsed(Map(obj'))
  {
  }

  /** Once only whitespace is left, `parse_list` never returns, whatever it
      has read: a list without its closing `]` loops. */
  lemma UnterminatedList(s: string, i: nat, items: seq<Value>)
    requires i <= |s| && SkipWs(s, i) == |s|
    ensures ListItems(s, i, items) == Diverges
  {
  }

  /** `k:[a` never returns: after the item `a` the list loop is at the end
      of the text. */
  lemma UnterminatedListLoops()
    ensures Document("k:[a") == Loops
  {
    var s := "k:[a";
    assert ScanUntil(s, 0, {':'}) == 1 by {
      assert s[0] !in {':'} && s[1] in {':'};
    }
    assert ValueStart(s, 0) == 2;
    assert ScanUntil(s, 3, ItemStops) == 4 by {
      assert s[3] !in ItemStops;
    }
    var v := Coerce(Strip(s[3..4]));
    assert ItemAt(s, 3) == Done(v, 4);
    assert SkipWs(s, 4) == 4;
    UnterminatedList(s, 4, [v]);
    assert ListItems(s, 3, []) == Diverges by {
      assert SkipWs(s, 3) == 3 by {
        assert !IsSpace(s[3]);
      }
    }
    assert ValueAt(s, 2) == Diverges by {
      assert SkipWs(s, 2) == 2 by {
        assert !IsSpace(s[2]);
      }
    }
    assert SkipWs(s, 0) == 0 by {
      assert !IsSpace(s[0]);
    }
    assert PairAt(s, 0, []) == Stuck;
  }

  /** `_ColonParser`: the text, its length and a cursor that only moves forward. */
  class ColonParser {
    const s: string
    const n: nat
    var i: nat

    ghost predicate Valid()
      reads this
    {
      n == |s| && i <= n
    }

    constructor (text: string)
      ensures Valid() && s == text && i == 0
    {
      s := text;
      n := |text|;
      i := 0;
    }

    /** `_peek`: the character under the cursor, or None at the end. */
    function Peek(): Option<char>
      reads this
      requires Valid()
    {
      if i < n then Some(s[i]) else None
    }

    /** `_next`: the character under the cursor, and the cursor moves on. */
    method Next() returns (ch: char)
      requires Valid() && i < n
      modifies this
      ensures Valid() && i == old(i) + 1 && ch == s[old(i)]
    {
      ch := s[i];
      i := i + 1;
    }

    /** `_consume_whitespace`. */
    method ConsumeWhitespace()
      requires Valid()
      modifies this
      ensures Valid() && i == SkipWs(s, old(i))
    {
      while Peek().Some? && IsSpace(Peek().value)
        invariant Valid() && old(i) <= i && SkipWs(s, i) == SkipWs(s, old(i))
        decreases n - i
      {
        var _ := Next();
      }
    }

    /** The token loop shared by keys, values and list items: collect
        characters until one of `stops` or the end of the text. */
    method ReadUntil(stops: set<char>) returns (token: string)
      requires Valid()
      modifies this
      ensures Valid() && i == ScanUntil(s, old(i), stops) && token == s[old(i)..i]
    {
      token := [];
      while true
        invariant Valid() && old(i) <= i && token == s[old(i)..i]
        invariant ScanUntil(s, i, stops) == ScanUntil(s, old(i), stops)
        decreases n - i
      {
        var ch := Peek();
        if ch.None? || ch.value in stops {
          break;
        }
        var c := Next();
        token := token + [c];
      }
    }

    /** The body shared by `parse_object` and `parse_colon_format` for one
        pair: the key characters up to `:`, the `:` itself when present,
        the value, `obj[key] = val`, and the whitespace after the value. */
    method ReadPair(obj: Entries) returns (obj': Entries)
      requires Valid() && PairAt(s, i, obj).Read?
      modifies this
      ensures Valid() && PairAt(s, old(i), obj) == Read(obj', i)
      decreases n - i, 2
    {
      ghost var p := i;
      var keyChars := ReadUntil({':'});
      var key := Strip(keyChars);
      if Peek() == Some(':') {
        var _ := Next();
      }
      var val := ParseValue();
      ghost var e := i;
      obj' := Put(obj, key, val);
      ConsumeWhitespace();
      PairAtRead(s, p, obj, val, e);
    }

    /** `parse_value`. */
    method ParseValue() returns (v: Value)
      requires Valid() && ValueAt(s, i).Done?
      modifies this
      ensures Valid() && ValueAt(s, old(i)) == Done(v, i)
      decreases n - i, 1
    {
      ConsumeWhitespace();
      var ch := Peek();
      if ch == Some('{') {
        v := ParseObject();
        return;
      }
      if ch == Some('[') {
        v := ParseList();
        return;
      }
      var token := ReadUntil(ValueStops);
      v := Coerce(Strip(token));
    }

    /** One pass of `parse_list`'s loop: the closing `]`, or one item and
        the `,` after it. */
    method ListMember(items: seq<Value>) returns (items': seq<Value>, finished: bool)
      requires Valid()
      requires var p := SkipWs(s, i); p < n && (s[p] != ']' ==> ItemAt(s, p).Done?)
      modifies this
      ensures Valid() && old(i) < i
      ensures var p := SkipWs(s, old(i)); s[p] == ']' ==> finished && items' == items && i == p + 1
      ensures var p := SkipWs(s, old(i)); s[p] != ']' ==>
        var r := ItemAt(s, p);
        var w := SkipWs(s, r.next);
        && !finished && items' == items + [r.v]
        && i == (if w < n && s[w] == ',' then w + 1 else w)
      decreases n - i, 3
    {
      ConsumeWhitespace();
      if Peek() == Some(']') {
        var _ := Next();
        return items, true;
      }
      var item;
      if Peek() == Some('{') {
        item := ParseObject();
      } else if Peek() == Some('[') {
        item := ParseList();
      } else {
        var token := ReadUntil(ItemStops);
        item := Coerce(Strip(token));
      }
      items' := items + [item];
      ConsumeWhitespace();
      finished := false;
      if Peek() == Some(',') {
        var _ := Next();
        return;
      }
      if Peek() == Some(']') {
        return;
      }
    }

    /** `parse_list`. */
    method ParseList() returns (v: Value)
      requires Valid() && i < n && s[i] == '[' && ListAt(s, i).Done?
      modifies this
      ensures Valid() && ListAt(s, old(i)) == Done(v, i)
      decreases n - i, 0
    {
      var _ := Next();
      var items: seq<Value> := [];
      while true
        invariant Valid() && old(i) < i
        invariant ListItems(s, i, items) == ListAt(s, old(i))
        decreases n - i
      {
        ghost var head, before := i, items;
        ListItemsHead(s, i, items);
        var finished;
        items, finished := ListMember(items);
        ListItemsPass(s, head, before, items, i, finished);
        if finished {
          break;
        }
      }
      v := List(items);
    }

    /** One pass of `parse_object`'s loop: the closing `}`, or one pair and
        what follows it. */
    method ObjectMember(obj: Entries) returns (obj': Entries, finished: bool)
      requires Valid()
      requires var p := SkipWs(s, i); !(p < n && s[p] == '}') ==> PairAt(s, p, obj).Read?
      modifies this
      ensures Valid() && (!finished ==> old(i) < i)
      ensures var p := SkipWs(s, old(i)); p < n && s[p] == '}' ==> finished && obj' == obj && i == p + 1
      ensures var p := SkipWs(s, old(i)); !(p < n && s[p] == '}') ==>
        var r := PairAt(s, p, obj);
        && obj' == r.obj && (finished <==> r.w == n)
        && i == (if r.w < n && s[r.w] == ';' then r.w + 1 else r.w)
      decreases n - i, 3
    {
      ConsumeWhitespace();
      if Peek() == Some('}') {
        var _ := Next();
        return obj, true;
      }
      obj' := ReadPair(obj);
      finished := false;
      if Peek() == Some(';') {
        var _ := Next();
        return;
      }
      if Peek() == Some('}') {
        return;
      }
      if Peek().None? {
        finished := true;
        return;
      }
    }

    /** `parse_object`. */
    method ParseObject() returns (v: Value)
      requires Valid() && i < n && s[i] == '{' && ObjectAt(s, i).Done?
      modifies this
      ensures Valid() && ObjectAt(s, old(i)) == Done(v, i)
      decreases n - i, 0
    {
      var _ := Next();
      var obj: Entries := [];
      while true
        invariant Valid() && old(i) < i
        invariant ObjectEntries(s, i, obj) == ObjectAt(s, old(i))
        decreases n - i
      {
        ghost var head, before := i, obj;
        ObjectEntriesHead(s, i, obj);
        var finished;
        obj, finished := ObjectMember(obj);
        ObjectEntriesPass(s, head, before, obj, i, finished);
        if finished {
          break;
        }
      }
      v := Map(obj);
    }

    /** One pass of `parse_colon_format`'s loop: a pair, and whether a `;`
        follows it. */
    method TopMember(obj: Entries) returns (obj': Entries, more: bool)
      requires Valid() && i < n && PairAt(s, SkipWs(s, i), obj).Read?
      modifies this
      ensures Valid() && old(i) < i
      ensures var r := PairAt(s, SkipWs(s, old(i)), obj);
        && obj' == r.obj
        && (more <==> r.w < n && s[r.w] == ';')
        && i == (if more then r.w + 1 else r.w)
    {
      ConsumeWhitespace();
      obj' := ReadPair(obj);
      var ch := Peek();
      if ch == Some(';') {
        var _ := Next();
        return obj', true;
      }
      more := false;
    }
  }

  /** `parse_colon_format`, run on a fresh parser. */
  method ParseColonFormat(text: string) returns (v: Value)
    requires Document(text).Parsed?
    ensures Document(text) == Parsed(v)
  {
    var parser := new ColonParser(text);
    parser.ConsumeWhitespace();
    var ch := parser.Peek();
    if ch == Some('{') {
      v := parser.ParseObject();
      return;
    }
    var obj: Entries := [];
    while parser.Peek().Some?
      invariant parser.Valid() && parser.s == text
      invariant TopEntries(text, parser.i, obj) == Document(text)
      decreases parser.n - parser.i
    {
      ghost var head := parser.i;
      ghost var r := PairAt(text, SkipWs(text, head), obj);
      TopEntriesValue(text, head, obj, SkipWs(text, head));
      var more;
      ghost var before := obj;
      obj, more := parser.TopMember(obj);
      TopEntriesMember(text, head, before, obj, r.w);
      if !more {
        break;
      }
    }
    v := Map(obj);
  }
}
