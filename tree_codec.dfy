/** `Codec`: a binary tree written as its preorder walk, with `None` for
    every missing child, joined by commas; and read back by a recursive
    build that walks the tokens with an index kept on the codec. */
module TreeCodec {
  import opened Text
  import opened Numerals

  /** A `TreeNode` with an int value, or `None`. */
  datatype Tree = Nil | Node(left: Tree, val: int, right: Tree)

  /** The preorder token list `serialize` joins: `None` for a missing node,
      otherwise the node's value followed by the tokens of its left and then
      its right subtree. */
  function Tokens(t: Tree): (r: seq<string>)
    ensures |r| >= 1
  {
    match t
    case Nil => ["None"]
    case Node(l, v, rt) => [IntToString(v)] + Tokens(l) + Tokens(rt)
  }

  function Size(t: Tree): nat
  {
    match t
    case Nil => 0
    case Node(l, _, r) => Size(l) + 1 + Size(r)
  }

  function NoneCount(ts: seq<string>): (n: nat)
    ensures n <= |ts|
  {
    if ts == [] then 0 else (if ts[0] == "None" then 1 else 0) + NoneCount(ts[1..])
  }

  lemma {:induction false} NoneCountAppend(a: seq<string>, b: seq<string>)
    ensures NoneCount(a + b) == NoneCount(a) + NoneCount(b)
  {
    if a == [] {
      assert a + b == b;
    } else {
      assert (a + b)[1..] == a[1..] + b;
      NoneCountAppend(a[1..], b);
    }
  }

  /** The text `str` writes for an int is neither `None` nor holds a comma. */
  lemma IntTokenShape(v: int)
    ensures IntToString(v) != "None" && ',' !in IntToString(v)
  {
    var t := IntToString(v);
    IntToStringRoundTrip(v);
    assert IsDigit(t[|t| - 1]);
  }

  /** A tree of `n` nodes gives `2n + 1` tokens, `n + 1` of them `None`. */
  lemma {:induction false} TokenCount(t: Tree)
    ensures |Tokens(t)| == 2 * Size(t) + 1
    ensures NoneCount(Tokens(t)) == Size(t) + 1
  {
    if t.Node? {
      TokenCount(t.left);
      TokenCount(t.right);
      IntTokenShape(t.val);
      var h := [IntToString(t.val)];
      NoneCountAppend(h, Tokens(t.left));
      NoneCountAppend(h + Tokens(t.left), Tokens(t.right));
    }
  }

  lemma {:induction false} TokensNoComma(t: Tree)
    ensures forall k :: 0 <= k < |Tokens(t)| ==> ',' !in Tokens(t)[k]
  {
    if t.Node? {
      TokensNoComma(t.left);
      TokensNoComma(t.right);
      IntTokenShape(t.val);
    }
  }

  /** How `build` reads one token: `None` is checked first, then `int()`
      either gives a value or raises ValueError. */
  datatype Tok = NoneTok | IntTok(v: int) | BadTok

  function Classify(token: string): (c: Tok)
    ensures c == NoneTok <==> token == "None"
  {
    if token == "None" then NoneTok
    else match PyInt(token)
      case ValueError => BadTok
      case IntOk(v) => IntTok(v)
  }

  /** How `build` would read each token; it reads only those it reaches. */
  function Classified(values: seq<string>): (r: seq<Tok>)
    ensures |r| == |values|
    ensures forall k :: 0 <= k < |values| ==> r[k] == Classify(values[k])
  {
    seq(|values|, k requires 0 <= k < |values| => Classify(values[k]))
  }

  /** What `build` does from a given index: the subtree and the index after
      it, or the exception it raises. */
  datatype Built = Ok(tree: Tree, next: nat) | IndexError | ValueError

  /** `build()` started at index `i`, over the tokens as it reads them: an
      index past the end raises IndexError, `None` is a missing node, a
      token `int` rejects raises ValueError, and a value token is a node
      whose left and then right subtree follow it. */
  function Decode(toks: seq<Tok>, i: nat): (r: Built)
    ensures r.Ok? ==> i < r.next <= |toks|
    ensures i >= |toks| ==> r == IndexError
    ensures r.Ok? && r.tree.Nil? <==> i < |toks| && toks[i] == NoneTok
    decreases |toks| - i
  {
    if i >= |toks| then IndexError
    else
      match toks[i]
      case NoneTok => Ok(Nil, i + 1)
      case BadTok => Built.ValueError
      case IntTok(v) =>
        match Decode(toks, i + 1)
        case Ok(l, j) =>
          (match Decode(toks, j)
           case Ok(r, k) => Ok(Node(l, v, r), k)
           case e => e)
        case e => e
  }

  /** `deserialize(data)`: split at commas, then build from the first token. */
  function Deserialized(data: string): Built
  {
    Decode(Classified(Split(data, ',')), 0)
  }

  /** The tokens of `t` as `build` reads them. */
  function TokSeq(t: Tree): (r: seq<Tok>)
    ensures |r| >= 1
  {
    match t
    case Nil => [NoneTok]
    case Node(l, v, rt) => [IntTok(v)] + TokSeq(l) + TokSeq(rt)
  }

  /** `build` reads every token `serialize` writes as written. */
  lemma {:induction false} ClassifiedTokens(t: Tree)
    ensures Classified(Tokens(t)) == TokSeq(t)
  {
    if t.Node? {
      ClassifiedTokens(t.left);
      ClassifiedTokens(t.right);
      var h, a, b := [IntToString(t.val)], Tokens(t.left), Tokens(t.right);
      assert Classified(h) == [IntTok(t.val)] by {
        ClassifyInt(t.val);
      }
      ClassifiedAppend(h, a);
      ClassifiedAppend(h + a, b);
    }
  }

  /** `int` reads back the text of an int, which is never `None`. */
  lemma ClassifyInt(v: int)
    ensures Classify(IntToString(v)) == IntTok(v)
  {
    IntTokenShape(v);
    PyIntRoundTrip(v);
  }

  lemma ClassifiedAppend(a: seq<string>, b: seq<string>)
    ensures Classified(a + b) == Classified(a) + Classified(b)
  {
    assert forall k :: 0 <= k < |a| ==> (a + b)[k] == a[k];
    assert forall k :: |a| <= k < |a| + |b| ==> (a + b)[k] == b[k - |a|];
  }

  /** `ts` occurs in `toks` starting at index `i`. */
  predicate TokensAt(toks: seq<Tok>, i: nat, ts: seq<Tok>)
    decreases |ts|
  {
    i + |ts| <= |toks| && (ts == [] || (toks[i] == ts[0] && TokensAt(toks, i + 1, ts[1..])))
  }

  lemma {:induction false} TokensAtConcat(toks: seq<Tok>, i: nat, a: seq<Tok>, b: seq<Tok>)
    requires TokensAt(toks, i, a + b)
    ensures TokensAt(toks, i, a) && TokensAt(toks, i + |a|, b)
    decreases |a|
  {
    if a == [] {
      assert a + b == b;
    } else {
      assert (a + b)[1..] == a[1..] + b;
      TokensAtConcat(toks, i + 1, a[1..], b);
    }
  }

  lemma {:induction false} TokensAtWhole(ts: seq<Tok>, i: nat)
    requires i <= |ts|
    ensures TokensAt(ts, i, ts[i..])
    decreases |ts| - i
  {
    if i < |ts| {
      assert ts[i..][1..] == ts[i + 1..];
      TokensAtWhole(ts, i + 1);
    }
  }

  /** `build` reads exactly the tokens of one encoded tree and ignores what
      follows them. */
  lemma {:induction false} DecodeTokens(toks: seq<Tok>, i: nat, t: Tree)
    requires TokensAt(toks, i, TokSeq(t))
    ensures Decode(toks, i) == Ok(t, i + |TokSeq(t)|)
    decreases t
  {
    if t.Node? {
      var h, a, b := [IntTok(t.val)], TokSeq(t.left), TokSeq(t.right);
      assert TokSeq(t) == h + (a + b);
      TokensAtConcat(toks, i, h, a + b);
      TokensAtConcat(toks, i + 1, a, b);
      DecodeTokens(toks, i + 1, t.left);
      DecodeTokens(toks, i + 1 + |a|, t.right);
    }
  }

  /** `build` over the tokens `serialize` writes rebuilds the tree and reads them all. */
  lemma BuildTokens(t: Tree)
    ensures Decode(Classified(Tokens(t)), 0) == Ok(t, |Tokens(t)|)
  {
    var ts := TokSeq(t);
    ClassifiedTokens(t);
    TokensAtWhole(ts, 0);
    assert ts[0..] == ts;
    DecodeTokens(ts, 0, t);
  }

  /** `deserialize(serialize(t))` rebuilds `t`, and reads every token. */
  lemma RoundTrip(t: Tree)
    ensures Deserialized(Join(Tokens(t), ",")) == Ok(t, |Tokens(t)|)
  {
    BuildTokens(t);
    TokensNoComma(t);
    SplitJoin(Tokens(t), ',');
  }

  /** `toks` ends somewhere inside an occurrence of `ts` starting at `i`:
      what is left of `toks` from `i` on is a proper prefix of `ts`. */
  predicate RunsOut(toks: seq<Tok>, i: nat, ts: seq<Tok>)
    decreases |ts|
  {
    i <= |toks| && |ts| > 0 && (i == |toks| || (toks[i] == ts[0] && RunsOut(toks, i + 1, ts[1..])))
  }

  lemma {:induction false} RunsOutConcat(toks: seq<Tok>, i: nat, a: seq<Tok>, b: seq<Tok>)
    requires RunsOut(toks, i, a + b)
    ensures RunsOut(toks, i, a) || (TokensAt(toks, i, a) && RunsOut(toks, i + |a|, b))
    decreases |a|
  {
    if a == [] {
      assert a + b == b;
    } else if i < |toks| {
      assert (a + b)[1..] == a[1..] + b;
      RunsOutConcat(toks, i + 1, a[1..], b);
    }
  }

  /** Tokens that stop before the encoded tree is complete make `build`
      index past the end. */
  lemma {:induction false} DecodeCutShort(toks: seq<Tok>, i: nat, t: Tree)
    requires RunsOut(toks, i, TokSeq(t))
    ensures Decode(toks, i) == IndexError
    decreases t
  {
    if i < |toks| {
      assert t.Node?;
      var h, a, b := [IntTok(t.val)], TokSeq(t.left), TokSeq(t.right);
      assert TokSeq(t) == h + (a + b);
      assert (h + (a + b))[1..] == a + b;
      RunsOutConcat(toks, i + 1, a, b);
      if RunsOut(toks, i + 1, a) {
        DecodeCutShort(toks, i + 1, t.left);
      } else {
        DecodeTokens(toks, i + 1, t.left);
        DecodeCutShort(toks, i + 1 + |a|, t.right);
      }
    }
  }

  lemma {:induction false} PrefixRunsOut(ts: seq<Tok>, m: nat, i: nat)
    requires i <= m < |ts|
    ensures RunsOut(ts[..m], i, ts[i..])
    decreases m - i
  {
    if i < m {
      assert ts[i..][1..] == ts[i + 1..];
      PrefixRunsOut(ts, m, i + 1);
    }
  }

  /** A proper prefix of a serialization fails with an out-of-range index. */
  lemma ProperPrefixFails(t: Tree, m: nat)
    requires m < |Tokens(t)|
    ensures Decode(Classified(Tokens(t)[..m]), 0) == IndexError
  {
    ClassifiedTokens(t);
    var ts := TokSeq(t);
    assert Classified(Tokens(t)[..m]) == ts[..m];
    PrefixRunsOut(ts, m, 0);
    assert ts[0..] == ts;
    DecodeCutShort(ts[..m], 0, t);
  }

  /** The codec object; `index` is the position `build` reads next. */
  class Codec {
    var index: int

    constructor ()
      ensures index == 0
    {
      index := 0;
    }

    /** `preorder(node)`: appends the node's tokens to `result`. */
    static method Preorder(node: Tree, result: seq<string>) returns (out: seq<string>)
      ensures out == result + Tokens(node)
    {
      if node == Nil {
        out := result + ["None"];
        return;
      }
      out := result + [IntToString(node.val)];
      out := Preorder(node.left, out);
      out := Preorder(node.right, out);
    }

    /** `serialize(root)`: the preorder tokens joined by commas. */
    method Serialize(root: Tree) returns (data: string)
      ensures data == Join(Tokens(root), ",")
    {
      var result := Preorder(root, []);
      assert result == Tokens(root);
      data := Join(result, ",");
    }

    /** `build()`: reads one subtree from `index` on, advancing `index` past
        it. When it raises, the exception leaves `deserialize` and `index` is
        of no further use. */
    method Build(values: seq<string>) returns (r: Built)
      requires 0 <= index
      modifies this
      ensures r == Decode(Classified(values), old(index))
      ensures r.Ok? ==> index == r.next
      decreases |values| - index
    {
      if index >= |values| {
        return IndexError;
      }
      ghost var toks := Classified(values);
      if values[index] == "None" {
        index := index + 1;
        return Ok(Nil, index);
      }
      var parsed := PyInt(values[index]);
      assert toks[index] == Classify(values[index]);
      if parsed.ValueError? {
        return Built.ValueError;
      }
      index := index + 1;
      var left := Build(values);
      if !left.Ok? {
        return left;
      }
      var right := Build(values);
      if !right.Ok? {
        return right;
      }
      r := Ok(Node(left.tree, parsed.value, right.tree), index);
    }

    /** `deserialize(data)`: `index` starts again at 0, so the result does
        not depend on earlier calls. */
    method Deserialize(data: string) returns (r: Built)
      modifies this
      ensures r == Deserialized(data)
      ensures r.Ok? ==> index == r.next
    {
      var values := Split(data, ',');
      index := 0;
      r := Build(values);
    }
  }

  /** The demo tree: 1 with left 2 and right 3, whose children are 4 and 5. */
  function SampleTree(): Tree
  {
    Node(Node(Nil, 2, Nil), 1, Node(Node(Nil, 4, Nil), 3, Node(Nil, 5, Nil)))
  }

  /** The demo tree's tokens: `serialize` gives
      `1,2,None,None,3,4,None,None,5,None,None`. */
  lemma SampleTokens()
    ensures Tokens(SampleTree()) == ["1", "2", "None", "None", "3", "4", "None", "None", "5", "None", "None"]
  {
    assert IntToString(1) == "1" && IntToString(2) == "2" && IntToString(3) == "3";
    assert IntToString(4) == "4" && IntToString(5) == "5";
    var n := ["None"];
    assert Tokens(Node(Nil, 2, Nil)) == ["2"] + n + n;
    assert Tokens(Node(Nil, 4, Nil)) == ["4"] + n + n;
    assert Tokens(Node(Nil, 5, Nil)) == ["5"] + n + n;
    assert Tokens(SampleTree().right) == ["3"] + (["4"] + n + n) + (["5"] + n + n);
  }

  /** Reading the demo tree's serialization back gives the whole tree, whose
      root value is 1. */
  lemma SampleRoundTrip()
    ensures Deserialized(Join(Tokens(SampleTree()), ",")).Ok?
    ensures Deserialized(Join(Tokens(SampleTree()), ",")).tree.val == 1
  {
    RoundTrip(SampleTree());
  }

  /** A token `int` rejects stops the build with ValueError, even when the
      tokens after it would complete the tree. */
  lemma BadTokenFails()
    ensures Deserialized(Join(["1", "x", "None", "None"], ",")) == Built.ValueError
  {
    var values := ["1", "x", "None", "None"];
    SplitJoin(values, ',');
    PyIntRoundTrip(1);
    assert PyInt("x") == IntResult.ValueError;
    assert Classified(values)[1] == BadTok;
  }
}
