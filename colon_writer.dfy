/** `serialize_colon`: the COLON text of a value, with the backslash escaping
    of strings that hold a reserved character. */
module ColonWriter {
  import opened Text
  import opened Numerals
  import opened Values

  /** The characters whose presence makes `serialize_colon` escape a string. */
  const Reserved: set<char> := {';', ':', '{', '}', '[', ']', ','}

  predicate HasReserved(s: string)
  {
    exists k :: 0 <= k < |s| && s[k] in Reserved
  }

  /** A backslash before every reserved character and every backslash. */
  function Escape(s: string): string
  {
    if s == [] then []
    else (if s[0] in Reserved || s[0] == '\\' then ['\\', s[0]] else [s[0]]) + Escape(s[1..])
  }

  /** Deleting the backslash in front of each escaped character. */
  function Unescape(t: string): string
  {
    if |t| >= 2 && t[0] == '\\' then [t[1]] + Unescape(t[2..])
    else if t == [] then []
    else [t[0]] + Unescape(t[1..])
  }

  /** The text of a string value: escaped only when it holds a reserved character. */
  function StrText(s: string): string
  {
    if HasReserved(s) then Escape(s) else s
  }

  /** `serialize_colon`. A bool is tested before an int, so it is written as
      a keyword and never as a number; a float is written as the decimal text
      it carries. `JoinedText` gives the text of a list and of a dict. */
  function SerializeColon(v: Value): (r: string)
    ensures v.Null? ==> r == "null"
    ensures v.Bool? ==> r == (if v.b then "true" else "false")
    ensures v.Int? ==> r == IntToString(v.i)
    decreases v
  {
    match v
    case Null => "null"
    case Bool(b) => if b then "true" else "false"
    case Int(i) => IntToString(i)
    case Float(text) => text
    case Str(s) => StrText(s)
    case List(items) => "[" + (ItemsText(items) + "]")
    case Map(es) => "{" + (EntriesText(es) + "}")
  }

  /** `','.join(serialize_colon(x) for x in items)`. */
  function ItemsText(items: seq<Value>): string
    decreases items
  {
    if items == [] then []
    else if |items| == 1 then SerializeColon(items[0])
    else SerializeColon(items[0]) + ("," + ItemsText(items[1..]))
  }

  /** One `k:v` part of a dict. The key is written as it is. */
  function EntryText(e: (string, Value)): string
    decreases e
  {
    e.0 + (":" + SerializeColon(e.1))
  }

  /** `';'.join` of the `k:v` parts, in insertion order. */
  function EntriesText(es: Entries): string
    decreases es
  {
    if es == [] then []
    else if |es| == 1 then EntryText(es[0])
    else EntryText(es[0]) + (";" + EntriesText(es[1..]))
  }

  /** `serialize_colon(x) for x in items`: the items' texts, in order. */
  function ItemTexts(items: seq<Value>): seq<string>
  {
    seq(|items|, k requires 0 <= k < |items| => SerializeColon(items[k]))
  }

  /** The `parts` of a dict: `f"{k}:{serialize_colon(v)}"` for each entry, in
      insertion order. */
  function EntryParts(es: Entries): seq<string>
  {
    seq(|es|, k requires 0 <= k < |es| => es[k].0 + ":" + SerializeColon(es[k].1))
  }

  /** The items' text is the `,`-join of the items' texts. */
  lemma {:induction false} ItemsJoin(items: seq<Value>)
    ensures ItemsText(items) == Join(ItemTexts(items), ",")
  {
    if |items| > 1 {
      ItemsJoin(items[1..]);
      assert ItemTexts(items)[1..] == ItemTexts(items[1..]);
    }
  }

  /** The entries' text is the `;`-join of the `k:v` parts. */
  lemma {:induction false} EntriesJoin(es: Entries)
    ensures EntriesText(es) == Join(EntryParts(es), ";")
  {
    if |es| > 1 {
      EntriesJoin(es[1..]);
      assert EntryParts(es)[1..] == EntryParts(es[1..]);
    }
  }

  /** A list is written as `'[' + ','.join(...) + ']'` of its items' texts,
      and a dict as `'{' + ';'.join(parts) + '}'` of its `k:v` parts. */
  lemma JoinedText(v: Value)
    ensures v.List? ==> SerializeColon(v) == "[" + Join(ItemTexts(v.items), ",") + "]"
    ensures v.Map? ==> SerializeColon(v) == "{" + Join(EntryParts(v.entries), ";") + "}"
  {
    if v.List? {
      ItemsJoin(v.items);
    } else if v.Map? {
      EntriesJoin(v.entries);
    }
  }

  /** Escaping lengthens by one character per escaped character, so it
      keeps a string exactly when the string has nothing to escape. */
  lemma {:induction false} EscapeLength(s: string)
    ensures |Escape(s)| >= |s|
    ensures HasReserved(s) ==> |Escape(s)| > |s|
  {
    if s != [] {
      EscapeLength(s[1..]);
      if HasReserved(s) && s[0] !in Reserved {
        var k :| 0 <= k < |s| && s[k] in Reserved;
        assert s[1..][k - 1] in Reserved;
      }
    }
  }

  /** A string is written unchanged exactly when it holds no reserved character. */
  lemma StrTextUnchanged(s: string)
    ensures StrText(s) == s <==> !HasReserved(s)
  {
    EscapeLength(s);
  }

  /** Deleting one backslash before each escaped character recovers the string. */
  lemma {:induction false} EscapeRoundTrip(s: string)
    ensures Unescape(Escape(s)) == s
  {
    if s != [] {
      EscapeRoundTrip(s[1..]);
      var rest := Escape(s[1..]);
      if s[0] in Reserved || s[0] == '\\' {
        assert Escape(s) == ['\\', s[0]] + rest;
        assert (['\\', s[0]] + rest)[2..] == rest;
      } else {
        assert Escape(s) == [s[0]] + rest;
        assert ([s[0]] + rest)[1..] == rest;
      }
    }
  }
}
