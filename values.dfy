/** The dynamic values the codec reads and writes (None, bool, int, float,
    str, list and insertion-ordered dict), dict assignment, and the coercion
    of a text token into a scalar (`_token_to_primitive`). */
module Values {
  import opened Text
  import opened Numerals

  /** A float is kept as the decimal text it was read from. A dict is the
      sequence of its items in insertion order. */
  datatype Value =
    | Null
    | Bool(b: bool)
    | Int(i: int)
    | Float(text: string)
    | Str(s: string)
    | List(items: seq<Value>)
    | Map(entries: seq<(string, Value)>)
  {
    predicate IsScalar() { !List? && !Map? }
  }

  datatype Option<T> = None | Some(value: T)

  type Entries = seq<(string, Value)>

  function Keys(es: Entries): (ks: seq<string>)
    ensures |ks| == |es| && forall k :: 0 <= k < |es| ==> ks[k] == es[k].0
  {
    if es == [] then [] else [es[0].0] + Keys(es[1..])
  }

  /** A dict never holds one key twice: no key comes back later. */
  predicate UniqueKeys(es: Entries)
  {
    es == [] || (es[0].0 !in Keys(es[1..]) && UniqueKeys(es[1..]))
  }

  /** `d.get(key)`. */
  function Lookup(es: Entries, key: string): (r: Option<Value>)
    ensures r.Some? <==> key in Keys(es)
    ensures r.Some? ==> (key, r.value) in es
  {
    if es == [] then None
    else if es[0].0 == key then Some(es[0].1)
    else Lookup(es[1..], key)
  }

  /** `d[key] = v`: a new key goes to the end, an existing key keeps its
      place and takes the new value. */
  function Put(es: Entries, key: string, v: Value): Entries
  {
    if es == [] then [(key, v)]
    else if es[0].0 == key then [(key, v)] + es[1..]
    else [es[0]] + Put(es[1..], key, v)
  }

  /** Assignment keeps the order of the keys and adds a new key at the end. */
  lemma {:induction false} PutKeys(es: Entries, key: string, v: Value)
    ensures Keys(Put(es, key, v)) == if key in Keys(es) then Keys(es) else Keys(es) + [key]
    ensures key !in Keys(es) ==> Put(es, key, v) == es + [(key, v)]
  {
    if es != [] {
      assert Keys(es) == [es[0].0] + Keys(es[1..]);
      if es[0].0 != key {
        PutKeys(es[1..], key, v);
        assert Keys(Put(es, key, v)) == [es[0].0] + Keys(Put(es[1..], key, v));
      } else {
        assert Keys(Put(es, key, v)) == [key] + Keys(es[1..]);
      }
    }
  }

  /** After `d[key] = v`, `d[key]` is `v` and every other key reads as before. */
  lemma {:induction false} PutLookup(es: Entries, key: string, v: Value, other: string)
    ensures Lookup(Put(es, key, v), key) == Some(v)
    ensures other != key ==> Lookup(Put(es, key, v), other) == Lookup(es, other)
  {
    if es != [] && es[0].0 != key {
      PutLookup(es[1..], key, v, other);
    }
  }

  /** Assignment keeps a dict's keys unique. */
  lemma {:induction false} PutUnique(es: Entries, key: string, v: Value)
    requires UniqueKeys(es)
    ensures UniqueKeys(Put(es, key, v))
  {
    if es != [] && es[0].0 != key {
      var r := Put(es[1..], key, v);
      PutUnique(es[1..], key, v);
      PutKeys(es[1..], key, v);
      assert ([es[0]] + r)[1..] == r;
    }
  }

  /** Every dict in the value, at any depth, has unique keys. */
  predicate WellFormed(v: Value)
    decreases v
  {
    match v
    case List(items) => forall k :: 0 <= k < |items| ==> WellFormed(items[k])
    case Map(es) => UniqueKeys(es) && forall k :: 0 <= k < |es| ==> WellFormed(es[k].1)
    case _ => true
  }

  /** `_token_to_primitive`: the token is stripped, then read, in this order,
      as the empty string, null, true, false (case-insensitively), an int
      (`-?\d+`), a float (`-?\d+\.\d+`), and otherwise kept as text. */
  function Coerce(token: string): (r: Value)
    ensures r.IsScalar()
  {
    var t := Strip(token);
    if t == "" then Str("")
    else if Lower(t) == "null" then Null
    else if Lower(t) == "true" then Bool(true)
    else if Lower(t) == "false" then Bool(false)
    else if IsIntText(t) then Int(IntTextValue(t))
    else if IsFloatText(t) then Float(t)
    else Str(t)
  }

  /** Coercion never fails, and the kind of scalar it gives is decided by the
      stripped token, each test in its order. */
  lemma CoerceCases(token: string)
    ensures var t, r := Strip(token), Coerce(token);
      && (r == Null <==> Lower(t) == "null")
      && (r == Bool(true) <==> Lower(t) == "true")
      && (r == Bool(false) <==> Lower(t) == "false")
      && (r.Int? <==> IsIntText(t))
      && (r.Int? ==> r.i == IntTextValue(t))
      && (r.Float? <==> IsFloatText(t))
      && (r.Float? ==> r.text == t)
      && (r.Str? ==> r.s == t)
      && (t == "" ==> r == Str(""))
  {
    LowerOfNumberText(Strip(token));
  }

  /** Number text starts with a digit or '-', so it never lower-cases to a keyword. */
  lemma LowerOfNumberText(t: string)
    ensures IsIntText(t) || IsFloatText(t) ==> Lower(t) != "null" && Lower(t) != "true" && Lower(t) != "false"
    ensures IsIntText(t) ==> !IsFloatText(t)
  {
    if IsIntText(t) { IntTextNotFloat(t); }
    if IsIntText(t) || IsFloatText(t) {
      assert IsDigit(t[0]) || t[0] == '-' by {
        if t[0] != '-' && IsFloatText(t) {
          assert IsDigits(t[..IndexOf(t, '.')]);
        }
      }
      var c := Lower(t)[0];
      assert c == LowerChar(t[0]) == t[0];
      assert c != 'n' && c != 't' && c != 'f';
    }
  }

  /** Coercion depends only on the stripped token. */
  lemma CoerceOfStripped(token: string)
    ensures Coerce(Strip(token)) == Coerce(token)
  {
    StripIdempotent(token);
  }

  /** The text `str` writes for an int coerces back to that int. */
  lemma CoerceIntText(i: int)
    ensures Coerce(IntToString(i)) == Int(i)
  {
    var t := IntToString(i);
    IntToStringRoundTrip(i);
    assert IsStripped(t) by {
      assert IsDigit(t[|t| - 1]);
      if i >= 0 { assert IsDigit(t[0]); }
    }
    StripOfStripped(t);
    CoerceCases(t);
    LowerOfNumberText(t);
  }

  /** No key of `es` is already among the keys of `acc`. */
  predicate Fresh(acc: Entries, es: Entries)
  {
    forall k :: 0 <= k < |es| ==> es[k].0 !in Keys(acc)
  }

  /** Reading the first entry keeps the rest fresh. */
  lemma FreshStep(acc: Entries, es: Entries)
    requires es != [] && UniqueKeys(es) && Fresh(acc, es)
    ensures Fresh(acc + [es[0]], es[1..])
  {
    assert Keys(acc + [es[0]]) == Keys(acc) + [es[0].0];
    forall k | 0 <= k < |es| - 1
      ensures es[1..][k].0 != es[0].0
    {
      assert es[1..][k].0 == Keys(es[1..])[k];
    }
  }

  /** `acc + xs` is `acc`, then the head of `xs`, then its tail. */
  lemma AppendHead<T>(acc: seq<T>, xs: seq<T>)
    requires xs != []
    ensures acc + [xs[0]] + xs[1..] == acc + xs
    ensures |xs| == 1 ==> acc + [xs[0]] == acc + xs
  {
    assert xs == [xs[0]] + xs[1..];
  }
}
