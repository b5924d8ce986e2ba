/** The PIPE syntax: `serialize_pipe` writes one line per key or list item,
    indented four spaces per level, and `parse_pipe_format` reads the lines
    back into nested blocks by their indentation. */
module Pipe {
  import opened Text
  import opened Numerals
  import opened Values

  // ---------------------------------------------------------------------
  // `str()` of a value, as the f-strings of `serialize_pipe` write it.

  /** `repr` of a value inside a container. A string is put between single
      quotes as it is (see README, "Left out"). */
  function Repr(v: Value): string
    decreases v
  {
    match v
    case Null => "None"
    case Bool(b) => if b then "True" else "False"
    case Int(i) => IntToString(i)
    case Float(text) => text
    case Str(s) => "'" + s + "'"
    case List(items) => "[" + (ReprItems(items) + "]")
    case Map(es) => "{" + (ReprEntries(es) + "}")
  }

  /** `', '.join(repr(x) for x in items)`. */
  function ReprItems(items: seq<Value>): string
    decreases items
  {
    if items == [] then []
    else if |items| == 1 then Repr(items[0])
    else Repr(items[0]) + (", " + ReprItems(items[1..]))
  }

  function ReprEntry(e: (string, Value)): string
    decreases e
  {
    "'" + e.0 + "': " + Repr(e.1)
  }

  /** `', '.join(f"{k!r}: {v!r}")` over the items of a dict. */
  function ReprEntries(es: Entries): string
    decreases es
  {
    if es == [] then []
    else if |es| == 1 then ReprEntry(es[0])
    else ReprEntry(es[0]) + (", " + ReprEntries(es[1..]))
  }

  /** `str(v)`: a string is itself, anything else its `repr`; so `None` and
      the bools are written capitalised. */
  function PyStr(v: Value): (r: string)
    ensures v.Str? ==> r == v.s
    ensures v.Null? ==> r == "None"
    ensures v.Bool? ==> r == if v.b then "True" else "False"
    ensures v.Int? ==> r == IntToString(v.i)
  {
    if v.Str? then v.s else Repr(v)
  }

  // ---------------------------------------------------------------------
  // The lines `serialize_pipe` writes.

  /** A line as its indentation level and the text after the indentation. */
  datatype Line = Line(level: nat, content: string)

  /** Four spaces per level, then the content. */
  function Render(ln: Line): (r: string)
    ensures |r| == 4 * ln.level + |ln.content|
  {
    Spaces(4 * ln.level) + ln.content
  }

  function RenderAll(ls: seq<Line>): (r: seq<string>)
    ensures |r| == |ls|
  {
    if ls == [] then [] else [Render(ls[0])] + RenderAll(ls[1..])
  }

  /** `serialize_pipe(v, d)`, line by line: a dict's entries, a list as one
      `- item` line per item, any other value as one line of its text. */
  function Layout(v: Value, d: nat): seq<Line>
  {
    match v
    case Map(es) => EntriesLayout(es, d)
    case List(items) => Bullets(items, d)
    case _ => [Line(d, PyStr(v))]
  }

  /** The entries of a dict in insertion order. */
  function EntriesLayout(es: Entries, d: nat): seq<Line>
    decreases es
  {
    if es == [] then [] else EntryLayout(es[0], d) + EntriesLayout(es[1..], d)
  }

  /** A dict under a key: `k|`, then its entries one level deeper; a list:
      `k|`, then its items one level deeper; a scalar: `k|` and its text. */
  function EntryLayout(e: (string, Value), d: nat): (r: seq<Line>)
    ensures r != [] && r[0].level == d
    decreases e
  {
    match e.1
    case Map(es) => [Line(d, e.0 + "|")] + EntriesLayout(es, d + 1)
    case List(items) => [Line(d, e.0 + "|")] + ListLayout(items, d + 1)
    case _ => [Line(d, e.0 + "|" + PyStr(e.1))]
  }

  /** The items of a list held under a key. */
  function ListLayout(items: seq<Value>, d: nat): seq<Line>
    decreases items
  {
    if items == [] then [] else ItemLayout(items[0], d) + ListLayout(items[1..], d)
  }

  /** A dict item: a bare `-`, then its entries one level deeper; a list
      item: a bare `-`, then its items as `- it` one level deeper; a scalar
      item: `- item`. */
  function ItemLayout(item: Value, d: nat): seq<Line>
    decreases item
  {
    match item
    case Map(es) => [Line(d, "-")] + EntriesLayout(es, d + 1)
    case List(inner) => [Line(d, "-")] + Bullets(inner, d + 1)
    case _ => [Line(d, "- " + PyStr(item))]
  }

  /** One `- item` line per item. */
  function Bullets(items: seq<Value>, d: nat): (r: seq<Line>)
    ensures |r| == |items|
  {
    if items == [] then [] else [Line(d, "- " + PyStr(items[0]))] + Bullets(items[1..], d)
  }

  lemma {:induction false} RenderAllAppend(a: seq<Line>, b: seq<Line>)
    ensures RenderAll(a + b) == RenderAll(a) + RenderAll(b)
  {
    if a == [] {
      assert a + b == b;
    } else {
      assert (a + b)[1..] == a[1..] + b;
      RenderAllAppend(a[1..], b);
    }
  }

  /** Four more spaces in front of the indentation reach the next level. */
  lemma Deeper(d: nat, c: string)
    ensures Spaces(4 * d) + ("    " + c) == Render(Line(d + 1, c))
    ensures Spaces(4 * d) + ("        " + c) == Render(Line(d + 2, c))
  {
    var a, b := Spaces(4 * d) + ("    " + c), Render(Line(d + 1, c));
    assert |a| == |b|;
    forall k | 0 <= k < |a| ensures a[k] == b[k] {
      if k < 4 * d + 4 {
        assert a[k] == ' ';
      }
    }
    var a2, b2 := Spaces(4 * d) + ("        " + c), Render(Line(d + 2, c));
    assert |a2| == |b2|;
    forall k | 0 <= k < |a2| ensures a2[k] == b2[k] {
      if k < 4 * d + 8 {
        assert a2[k] == ' ';
      }
    }
  }

  /** `serialize_pipe(obj, indent)`. Between steps, the lines written so far
      followed by the lines of what is still to be written are the layout of
      the whole value. */
  method SerializePipe(obj: Value, indent: nat) returns (lines: seq<string>)
    ensures lines == RenderAll(Layout(obj, indent))
    decreases obj, 0
  {
    lines := [];
    var ind := Spaces(4 * indent);
    if obj.Map? {
      var es := obj.entries;
      for j := 0 to |es|
        invariant EntriesPending(lines, es, j, indent)
      {
        var more := EntryLines(es[j], indent, ind);
        EntriesStep(lines, more, es, j, indent);
        lines := lines + more;
      }
      EntriesDone(lines, es, indent);
    } else if obj.List? {
      var items := obj.items;
      for j := 0 to |items|
        invariant lines == RenderAll(Bullets(items[..j], indent))
      {
        BulletsSnoc(items, j, indent);
        lines := lines + [ind + ("- " + PyStr(items[j]))];
      }
      assert items[..|items|] == items;
    } else {
      lines := [ind + PyStr(obj)];
    }
  }

  /** The lines written, then those of the entries from `j` on, are the lines of all entries. */
  predicate EntriesPending(lines: seq<string>, es: Entries, j: nat, d: nat)
  {
    j <= |es| && lines + RenderAll(EntriesLayout(es[j..], d)) == RenderAll(EntriesLayout(es, d))
  }

  lemma EntriesStep(lines: seq<string>, more: seq<string>, es: Entries, j: nat, d: nat)
    requires j < |es| && EntriesPending(lines, es, j, d)
    requires more == RenderAll(EntryLayout(es[j], d))
    ensures EntriesPending(lines + more, es, j + 1, d)
  {
    EntriesRest(es, j, d);
    AppendAssoc(lines, more, RenderAll(EntriesLayout(es[j + 1..], d)));
  }

  lemma EntriesDone(lines: seq<string>, es: Entries, d: nat)
    requires EntriesPending(lines, es, |es|, d)
    ensures lines == RenderAll(EntriesLayout(es, d))
  {
    assert es[|es|..] == [];
  }

  lemma AppendAssoc<T>(a: seq<T>, b: seq<T>, c: seq<T>)
    ensures (a + b) + c == a + (b + c)
  {
  }

  lemma EntriesRest(es: Entries, j: nat, d: nat)
    requires j < |es|
    ensures RenderAll(EntriesLayout(es[j..], d))
      == RenderAll(EntryLayout(es[j], d)) + RenderAll(EntriesLayout(es[j + 1..], d))
  {
    assert es[j..][1..] == es[j + 1..];
    RenderAllAppend(EntryLayout(es[j], d), EntriesLayout(es[j + 1..], d));
  }

  lemma ListRest(items: seq<Value>, m: nat, d: nat)
    requires m < |items|
    ensures RenderAll(ListLayout(items[m..], d))
      == RenderAll(ItemLayout(items[m], d)) + RenderAll(ListLayout(items[m + 1..], d))
  {
    assert items[m..][1..] == items[m + 1..];
    RenderAllAppend(ItemLayout(items[m], d), ListLayout(items[m + 1..], d));
  }

  lemma {:induction false} BulletsAppend(a: seq<Value>, b: seq<Value>, d: nat)
    ensures Bullets(a + b, d) == Bullets(a, d) + Bullets(b, d)
  {
    if a == [] {
      assert a + b == b;
    } else {
      assert (a + b)[1..] == a[1..] + b;
      BulletsAppend(a[1..], b, d);
    }
  }

  lemma BulletsSnoc(items: seq<Value>, j: nat, d: nat)
    requires j < |items|
    ensures RenderAll(Bullets(items[..j + 1], d))
      == RenderAll(Bullets(items[..j], d)) + [Spaces(4 * d) + ("- " + PyStr(items[j]))]
  {
    assert items[..j + 1] == items[..j] + [items[j]];
    BulletsAppend(items[..j], [items[j]], d);
    var one := Bullets([items[j]], d);
    assert [items[j]][1..] == [];
    assert one == [Line(d, "- " + PyStr(items[j]))];
    RenderAllAppend(Bullets(items[..j], d), one);
    assert one[1..] == [];
    assert RenderAll(one) == [Render(one[0])];
  }

  /** One entry `k, v` of a dict at level `indent`, whose indentation text is `ind`. */
  method EntryLines(e: (string, Value), indent: nat, ind: string) returns (lines: seq<string>)
    requires ind == Spaces(4 * indent)
    ensures lines == RenderAll(EntryLayout(e, indent))
    decreases e, 1
  {
    var (k, v) := e;
    if v.Map? {
      var sub := SerializePipe(v, indent + 1);
      RenderAllAppend([Line(indent, k + "|")], EntriesLayout(v.entries, indent + 1));
      lines := [ind + (k + "|")] + sub;
    } else if v.List? {
      var more := ListLines(v.items, indent, ind);
      RenderAllAppend([Line(indent, k + "|")], ListLayout(v.items, indent + 1));
      lines := [ind + (k + "|")] + more;
    } else {
      assert k + "|" + PyStr(v) == k + ("|" + PyStr(v));
      lines := [ind + (k + "|" + PyStr(v))];
    }
  }

  /** The loop over the items of a list held under a key at level `indent`. */
  method ListLines(items: seq<Value>, indent: nat, ind: string) returns (lines: seq<string>)
    requires ind == Spaces(4 * indent)
    ensures lines == RenderAll(ListLayout(items, indent + 1))
    decreases items, 1
  {
    lines := [];
    for m := 0 to |items|
      invariant ListPending(lines, items, m, indent + 1)
    {
      lines := ListItem(lines, items, m, indent, ind);
    }
    ListDone(lines, items, indent + 1);
  }

  /** One pass of the loop over the items: the lines of item `m` are added. */
  method ListItem(lines: seq<string>, items: seq<Value>, m: nat, indent: nat, ind: string) returns (lines': seq<string>)
    requires ind == Spaces(4 * indent)
    requires m < |items| && ListPending(lines, items, m, indent + 1)
    ensures ListPending(lines', items, m + 1, indent + 1)
    decreases items, 0
  {
    var more := ItemLines(items[m], indent, ind);
    ListStep(lines, more, items, m, indent + 1);
    lines' := lines + more;
  }

  /** The lines written, then those of the items from `m` on, are the lines of all items. */
  predicate ListPending(lines: seq<string>, items: seq<Value>, m: nat, d: nat)
  {
    m <= |items| && lines + RenderAll(ListLayout(items[m..], d)) == RenderAll(ListLayout(items, d))
  }

  lemma ListStep(lines: seq<string>, more: seq<string>, items: seq<Value>, m: nat, d: nat)
    requires m < |items| && ListPending(lines, items, m, d)
    requires more == RenderAll(ItemLayout(items[m], d))
    ensures ListPending(lines + more, items, m + 1, d)
  {
    ListRest(items, m, d);
    AppendAssoc(lines, more, RenderAll(ListLayout(items[m + 1..], d)));
  }

  lemma ListDone(lines: seq<string>, items: seq<Value>, d: nat)
    requires ListPending(lines, items, |items|, d)
    ensures lines == RenderAll(ListLayout(items, d))
  {
    assert items[|items|..] == [];
  }

  /** One item of a list held under a key at level `indent`. */
  method ItemLines(item: Value, indent: nat, ind: string) returns (lines: seq<string>)
    requires ind == Spaces(4 * indent)
    ensures lines == RenderAll(ItemLayout(item, indent + 1))
    decreases item, 1
  {
    if item.Map? || item.List? {
      Deeper(indent, "-");
      assert "    " + "-" == "    -";
      lines := [ind + "    -"];
      if item.Map? {
        var sub := SerializePipe(item, indent + 2);
        RenderAllAppend([Line(indent + 1, "-")], EntriesLayout(item.entries, indent + 2));
        lines := lines + sub;
      } else {
        var more := InnerItems(item.items, indent, ind);
        RenderAllAppend([Line(indent + 1, "-")], Bullets(item.items, indent + 2));
        lines := lines + more;
      }
    } else {
      Deeper(indent, "- " + PyStr(item));
      lines := [ind + ("    " + ("- " + PyStr(item)))];
    }
  }

  /** The items of a list that is itself an item of a list held under a
      key at level `indent`: each as `- it`, two levels deeper. */
  method InnerItems(inner: seq<Value>, indent: nat, ind: string) returns (lines: seq<string>)
    requires ind == Spaces(4 * indent)
    ensures lines == RenderAll(Bullets(inner, indent + 2))
  {
    lines := [];
    for q := 0 to |inner|
      invariant lines == RenderAll(Bullets(inner[..q], indent + 2))
    {
      BulletsSnoc(inner, q, indent + 2);
      Deeper(indent, "- " + PyStr(inner[q]));
      lines := lines + [ind + ("        " + ("- " + PyStr(inner[q])))];
    }
    assert inner[..|inner|] == inner;
  }

  // ---------------------------------------------------------------------
  // Reading the lines back.

  /** `s.splitlines()`, except that a `\r\n` pair and a final line break
      also give an empty field; the blank fields are dropped next anyway. */
  function SplitLines(s: string): (r: seq<string>)
    ensures |r| >= 1
    ensures forall k :: 0 <= k < |r| ==> NoLineBreak(r[k])
  {
    if |s| == 0 then [[]]
    else
      var rest := SplitLines(s[1..]);
      if IsLineBreak(s[0]) then [[]] + rest
      else
        var first := [s[0]] + rest[0];
        assert forall k :: 0 < k < |first| ==> first[k] == rest[0][k - 1];
        [first] + rest[1..]
  }

  /** `[ln.rstrip() for ln in lines if ln.strip() != '']`. */
  function NonBlank(lines: seq<string>): (r: seq<string>)
    ensures |r| <= |lines|
  {
    if lines == [] then []
    else (if Strip(lines[0]) != [] then [RStrip(lines[0])] else []) + NonBlank(lines[1..])
  }

  /** The lines `parse_pipe_format` works on. */
  function PipeLines(s: string): seq<string>
  {
    NonBlank(SplitLines(s))
  }

  /** The spaces a line starts with: what `( *)` matches. */
  function LeadingSpaces(t: string): (n: nat)
    ensures n <= |t| && forall k :: 0 <= k < n ==> t[k] == ' '
    ensures n < |t| ==> t[n] != ' '
    ensures AllSpaces(t[..n])
  {
    if t != [] && t[0] == ' ' then
      var m := LeadingSpaces(t[1..]);
      assert t[..m + 1][1..] == t[1..][..m];
      1 + m
    else 0
  }

  /** `( *)(.*)`: the level is the number of leading spaces divided by four,
      rounding down, and the content is the rest of the line. */
  function Indented(t: string): (r: Line)
    ensures 4 * r.level <= |t| - |r.content| < 4 * r.level + 4
    ensures r.content == t[|t| - |r.content|..]
    ensures AllSpaces(t[..|t| - |r.content|])
    ensures r.content != [] ==> r.content[0] != ' '
  {
    var n := LeadingSpaces(t);
    Line(n / 4, t[n..])
  }

  function IndentAll(lines: seq<string>): (r: seq<Line>)
    ensures |r| == |lines| && forall k :: 0 <= k < |lines| ==> r[k] == Indented(lines[k])
  {
    if lines == [] then [] else [Indented(lines[0])] + IndentAll(lines[1..])
  }

  /** The loop that turns each line into its level and its content. */
  method IndentLines(lines: seq<string>) returns (parsed: seq<Line>)
    ensures |parsed| == |lines|
    ensures forall k :: 0 <= k < |lines| ==> parsed[k] == Indented(lines[k])
  {
    parsed := [];
    for j := 0 to |lines|
      invariant |parsed| == j && forall k :: 0 <= k < j ==> parsed[k] == Indented(lines[k])
    {
      parsed := parsed + [Indented(lines[j])];
    }
  }

  /** What a block has built so far: a dict, until a `- ` line turns it into a list. */
  datatype Acc = Dict(entries: Entries) | Items(items: seq<Value>)

  function AccValue(acc: Acc): (v: Value)
    ensures v.Map? <==> acc.Dict?
  {
    match acc
    case Dict(es) => Map(es)
    case Items(xs) => List(xs)
  }

  /** A finished block and the index of the first line after it, or the
      `TypeError` of assigning a key in a block that became a list. */
  datatype Built = Built(value: Value, next: nat) | BuildTypeError

  /** `build_block(level)` started at line `i` with `acc` built so far. A
      line above the level ends the block; a deeper line is skipped. */
  function Block(L: seq<Line>, i: nat, level: nat, acc: Acc): (r: Built)
    requires i <= |L|
    ensures r.Built? ==> i <= r.next <= |L| && (r.value.Map? || r.value.List?)
    decreases |L| - i, 2
  {
    if i == |L| || L[i].level < level then Built(AccValue(acc), i)
    else if L[i].level > level then Block(L, i + 1, level, acc)
    else Member(L, i, level, acc)
  }

  /** A line of the block's own level, by its kind, then the rest of the block. */
  function Member(L: seq<Line>, i: nat, level: nat, acc: Acc): (r: Built)
    requires i < |L|
    ensures r.Built? ==> i < r.next <= |L| && (r.value.Map? || r.value.List?)
    decreases |L| - i, 1
  {
    if StartsWith(L[i].content, "- ") then ItemLine(L, i, level, acc)
    else if '|' in L[i].content then KeyLine(L, i, level, acc)
    else TextLine(L, i, level, acc)
  }

  /** A `- ` line adds its coerced item, replacing a dict built so far by a
      list that holds only the item. */
  function ItemLine(L: seq<Line>, i: nat, level: nat, acc: Acc): (r: Built)
    requires i < |L| && StartsWith(L[i].content, "- ")
    ensures r.Built? ==> i < r.next <= |L| && (r.value.Map? || r.value.List?)
    decreases |L| - i, 0
  {
    var value := Coerce(Strip(L[i].content[2..]));
    Block(L, i + 1, level, if acc.Items? then Items(acc.items + [value]) else Items([value]))
  }

  /** A line with a `|` sets the key before it: to the block of deeper lines
      below it when nothing but space follows the `|`, and otherwise to the
      coerced text after it (after a `- `, if the text starts with one).
      Setting a key raises once the block is a list. */
  function KeyLine(L: seq<Line>, i: nat, level: nat, acc: Acc): (r: Built)
    requires i < |L| && '|' in L[i].content
    ensures r.Built? ==> i < r.next <= |L| && (r.value.Map? || r.value.List?)
    decreases |L| - i, 0
  {
    var parts := SplitFirst(L[i].content, '|');
    var key, valpart := Strip(parts.0), Strip(parts.1);
    if valpart == [] then
      match Block(L, i + 1, level + 1, Dict([]))
      case BuildTypeError => BuildTypeError
      case Built(child, j) =>
        if acc.Items? then BuildTypeError else Block(L, j, level, Dict(Put(acc.entries, key, child)))
    else
      var value := if StartsWith(valpart, "- ") then Coerce(Strip(valpart[2..])) else Coerce(valpart);
      if acc.Items? then BuildTypeError else Block(L, i + 1, level, Dict(Put(acc.entries, key, value)))
  }

  /** Any other line sets its stripped text to the empty string, and raises
      once the block is a list. */
  function TextLine(L: seq<Line>, i: nat, level: nat, acc: Acc): (r: Built)
    requires i < |L|
    ensures r.Built? ==> i < r.next <= |L| && (r.value.Map? || r.value.List?)
    decreases |L| - i, 0
  {
    if acc.Items? then BuildTypeError
    else Block(L, i + 1, level, Dict(Put(acc.entries, Strip(L[i].content), Str(""))))
  }

  /** What `parse_pipe_format` returns, or the `TypeError` it raises. */
  datatype PipeResult = PipeOk(value: Value) | PipeTypeError

  function Outcome(r: PipeResult, next: nat): Built
  {
    if r.PipeOk? then Built(r.value, next) else BuildTypeError
  }

  /** `parse_pipe_format(s)`: the block of level 0 over all the lines. */
  function PipeDocument(s: string): (r: PipeResult)
    ensures r.PipeOk? ==> r.value.Map? || r.value.List?
  {
    match Block(IndentAll(PipeLines(s)), 0, 0, Dict([]))
    case BuildTypeError => PipeTypeError
    case Built(v, _) => PipeOk(v)
  }

  /** The state `build_block` shares between its nested calls: the parsed
      lines and the index `i` of the next line to read. */
  class PipeParser {
    const parsed: seq<Line>
    var i: nat

    constructor(parsed: seq<Line>)
      ensures this.parsed == parsed && i == 0
    {
      this.parsed := parsed;
      i := 0;
    }

    /** `build_block(level)`: reads the block starting at line `i` and
        leaves `i` at the first line after it. */
    method BuildBlock(level: nat) returns (r: PipeResult)
      requires i <= |parsed|
      modifies this
      ensures i <= |parsed|
      ensures Block(parsed, old(i), level, Dict([])) == Outcome(r, i)
      decreases |parsed| - i
    {
      var result := Dict([]);
      while i < |parsed|
        invariant old(i) <= i <= |parsed|
        invariant Block(parsed, i, level, result) == Block(parsed, old(i), level, Dict([]))
        decreases |parsed| - i
      {
        var ln := parsed[i];
        if ln.level < level {
          break;
        }
        if ln.level > level {
          i := i + 1;
          continue;
        }
        ghost var at, was := i, result;
        assert Block(parsed, at, level, was) == Member(parsed, at, level, was);
        i := i + 1;
        var content := ln.content;
        if StartsWith(content, "- ") {
          assert Member(parsed, at, level, was) == ItemLine(parsed, at, level, was);
          var value := Coerce(Strip(content[2..]));
          if !result.Items? {
            result := Items([value]);
          } else {
            result := Items(result.items + [value]);
          }
          continue;
        }
        if '|' in content {
          assert Member(parsed, at, level, was) == KeyLine(parsed, at, level, was);
          var parts := SplitFirst(content, '|');
          var key, valpart := Strip(parts.0), Strip(parts.1);
          if valpart == [] {
            var child := BuildBlock(level + 1);
            if child.PipeTypeError? || result.Items? {
              return PipeTypeError;
            }
            result := Dict(Put(result.entries, key, child.value));
          } else if result.Items? {
            return PipeTypeError;
          } else if StartsWith(valpart, "- ") {
            result := Dict(Put(result.entries, key, Coerce(Strip(valpart[2..]))));
          } else {
            result := Dict(Put(result.entries, key, Coerce(valpart)));
          }
        } else {
          assert Member(parsed, at, level, was) == TextLine(parsed, at, level, was);
          if result.Items? {
            return PipeTypeError;
          }
          result := Dict(Put(result.entries, Strip(content), Str("")));
        }
      }
      return PipeOk(AccValue(result));
    }
  }

  /** `parse_pipe_format(s)`. */
  method ParsePipeFormat(s: string) returns (r: PipeResult)
    ensures r == PipeDocument(s)
  {
    var lines := PipeLines(s);
    var parsed := IndentLines(lines);
    assert parsed == IndentAll(lines);
    var parser := new PipeParser(parsed);
    r := parser.BuildBlock(0);
  }
}
