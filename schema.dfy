/** `validate_schema`: checking a value against a schema made of nested
    dicts (required keys), lists (an element schema), the type tags `int`,
    `float`, `str`, `bool`, `None`, and custom predicates, collecting one
    error message per violation. */
module Schemas {
  import opened Text
  import opened Numerals
  import opened Values

  /** What a custom predicate does on a value: returns a truth value, or raises. */
  datatype PredResult = Ok(holds: bool) | Raised

  /** A dict schema is the sequence of its items in order. */
  datatype Schema =
    | Obj(fields: seq<(string, Schema)>)
    | Lst(elems: seq<Schema>)
    | TInt
    | TFloat
    | TStr
    | TBool
    | TNull
    | Pred(f: Value -> PredResult)

  /** `bool(sch)`: an empty dict or list, and `None`, are false. */
  predicate Truthy(s: Schema)
  {
    match s
    case Obj(fields) => fields != []
    case Lst(elems) => elems != []
    case TNull => false
    case _ => true
  }

  /** The messages `_validate(v, s, path)` appends, in order. */
  function Errors(v: Value, s: Schema, path: string): seq<string>
    decreases s, 0
  {
    match s
    case Obj(fields) =>
      if !v.Map? then [(if path == "" then "/" else path) + ": expected object"]
      else FieldErrors(v.entries, fields, path)
    case Lst(elems) =>
      if !v.List? then [path + ": expected list"]
      else if elems != [] && Truthy(elems[0]) then ItemErrors(v.items, elems[0], path, 0)
      else []
    case TInt => if v.Int? || v.Bool? then [] else [path + ": expected int"]
    case TFloat => if v.Float? then [] else [path + ": expected float"]
    case TStr => if v.Str? then [] else [path + ": expected str"]
    case TBool => if v.Bool? then [] else [path + ": expected bool"]
    case TNull => if v.Null? then [] else [path + ": expected null"]
    case Pred(f) =>
      match f(v)
      case Raised => [path + ": custom validator exception"]
      case Ok(b) => if b then [] else [path + ": custom validator failed"]
  }

  /** The messages for the required keys `fields` of a dict with items `es`. */
  function FieldErrors(es: Entries, fields: seq<(string, Schema)>, path: string): seq<string>
    decreases fields, 1
  {
    if fields == [] then []
    else FieldError(es, fields[0], path) + FieldErrors(es, fields[1..], path)
  }

  /** The messages for one required key: missing, or the value's own. */
  function FieldError(es: Entries, field: (string, Schema), path: string): seq<string>
    decreases field, 0
  {
    match Lookup(es, field.0)
    case None => [path + "/" + field.0 + ": missing"]
    case Some(x) => Errors(x, field.1, path + "/" + field.0)
  }

  /** The messages for the list items `items`, numbered from `idx`. */
  function ItemErrors(items: seq<Value>, sub: Schema, path: string, idx: nat): seq<string>
    decreases sub, 1, |items|
  {
    if items == [] then []
    else Errors(items[0], sub, ItemPath(path, idx)) + ItemErrors(items[1..], sub, path, idx + 1)
  }

  /** `f"{path}[{idx}]"`. */
  function ItemPath(path: string, idx: nat): string
  {
    path + "[" + NatToString(idx) + "]"
  }

  // ---------------------------------------------------------------------
  // What it means to pass, stated without the messages.

  /** The value matches the schema: a dict holding every required key with a
      matching value, a list whose items all match a truthy element schema
      (a falsy one accepts every list), a value of the tagged type (a bool
      counts as an int), `None` for `None`, a predicate that holds. */
  predicate Conforms(v: Value, s: Schema)
    decreases s, 0
  {
    match s
    case Obj(fields) => v.Map? && FieldsConform(v.entries, fields)
    case Lst(elems) => v.List? && (elems == [] || !Truthy(elems[0]) || ItemsConform(v.items, elems[0]))
    case TInt => v.Int? || v.Bool?
    case TFloat => v.Float?
    case TStr => v.Str?
    case TBool => v.Bool?
    case TNull => v.Null?
    case Pred(f) => f(v) == Ok(true)
  }

  predicate FieldsConform(es: Entries, fields: seq<(string, Schema)>)
    decreases fields, 1
  {
    forall k :: 0 <= k < |fields| ==> FieldConforms(es, fields[k])
  }

  predicate FieldConforms(es: Entries, field: (string, Schema))
    decreases field, 0
  {
    var x := Lookup(es, field.0);
    x.Some? && Conforms(x.value, field.1)
  }

  predicate ItemsConform(items: seq<Value>, sub: Schema)
    decreases sub, 1
  {
    forall k :: 0 <= k < |items| ==> Conforms(items[k], sub)
  }

  /** No message at all exactly when the value matches, whatever the path. */
  lemma {:induction false} NoErrorsIffConforms(v: Value, s: Schema, path: string)
    ensures Errors(v, s, path) == [] <==> Conforms(v, s)
    decreases s, 0
  {
    match s
    case Obj(fields) =>
      if v.Map? {
        FieldsNoErrors(v.entries, fields, path);
      }
    case Lst(elems) =>
      if v.List? && elems != [] && Truthy(elems[0]) {
        ItemsNoErrors(v.items, elems[0], path, 0);
      }
    case _ =>
  }

  lemma {:induction false} FieldsNoErrors(es: Entries, fields: seq<(string, Schema)>, path: string)
    ensures FieldErrors(es, fields, path) == [] <==> FieldsConform(es, fields)
    decreases fields, 1
  {
    if fields != [] {
      FieldNoErrors(es, fields[0], path);
      FieldsNoErrors(es, fields[1..], path);
      assert forall k :: 1 <= k < |fields| ==> fields[1..][k - 1] == fields[k];
    }
  }

  lemma {:induction false} FieldNoErrors(es: Entries, field: (string, Schema), path: string)
    ensures FieldError(es, field, path) == [] <==> FieldConforms(es, field)
    decreases field, 0
  {
    var x := Lookup(es, field.0);
    if x.Some? {
      NoErrorsIffConforms(x.value, field.1, path + "/" + field.0);
    }
  }

  lemma {:induction false} ItemsNoErrors(items: seq<Value>, sub: Schema, path: string, idx: nat)
    ensures ItemErrors(items, sub, path, idx) == [] <==> ItemsConform(items, sub)
    decreases sub, 1, |items|
  {
    if items != [] {
      NoErrorsIffConforms(items[0], sub, ItemPath(path, idx));
      ItemsNoErrors(items[1..], sub, path, idx + 1);
      assert forall k :: 1 <= k < |items| ==> items[1..][k - 1] == items[k];
    }
  }

  // ---------------------------------------------------------------------
  // Which parts of the value are read.

  /** Only the required keys of a dict are looked up: two dicts that agree on
      them get the same messages. */
  lemma {:induction false} OnlyRequiredKeys(es: Entries, es': Entries, fields: seq<(string, Schema)>, path: string)
    requires forall k :: 0 <= k < |fields| ==> Lookup(es, fields[k].0) == Lookup(es', fields[k].0)
    ensures FieldErrors(es, fields, path) == FieldErrors(es', fields, path)
    decreases fields
  {
    if fields != [] {
      assert Lookup(es, fields[0].0) == Lookup(es', fields[0].0);
      OnlyRequiredKeys(es, es', fields[1..], path);
    }
  }

  /** Looking a key up in a dict extended by new items. */
  lemma {:induction false} LookupAppend(es: Entries, extra: Entries, key: string)
    requires key !in Keys(extra)
    ensures Lookup(es + extra, key) == Lookup(es, key)
    decreases es
  {
    if es == [] {
      assert es + extra == extra;
    } else {
      assert (es + extra)[1..] == es[1..] + extra;
      LookupAppend(es[1..], extra, key);
    }
  }

  /** Keys of the value that the schema does not name are ignored. */
  lemma ExtraKeysIgnored(es: Entries, extra: Entries, fields: seq<(string, Schema)>, path: string)
    requires forall k :: 0 <= k < |fields| ==> fields[k].0 !in Keys(extra)
    ensures Errors(Map(es + extra), Obj(fields), path) == Errors(Map(es), Obj(fields), path)
  {
    forall k | 0 <= k < |fields|
      ensures Lookup(es + extra, fields[k].0) == Lookup(es, fields[k].0)
    {
      LookupAppend(es, extra, fields[k].0);
    }
    OnlyRequiredKeys(es + extra, es, fields, path);
  }

  /** A value that is not a dict gets one message for a dict schema, and its
      required keys are not looked at. */
  lemma NotObject(v: Value, fields: seq<(string, Schema)>, path: string)
    requires !v.Map?
    ensures Errors(v, Obj(fields), path) == [(if path == "" then "/" else path) + ": expected object"]
  {
  }

  /** A list schema whose first element schema is falsy (`{}`, `[]` or
      `None`) checks no item. */
  lemma FalsyElementSchema(items: seq<Value>, elems: seq<Schema>, path: string)
    requires elems != [] && !Truthy(elems[0])
    ensures Errors(List(items), Lst(elems), path) == []
  {
  }

  /** A predicate that is false or raises gives exactly one message. */
  lemma PredicateOneError(v: Value, f: Value -> PredResult, path: string)
    ensures |Errors(v, Pred(f), path)| == (if f(v) == Ok(true) then 0 else 1)
  {
  }

  /** Every required key is checked, whatever the earlier ones gave: the
      messages of the keys are concatenated. */
  lemma {:induction false} FieldsConcatenate(es: Entries, a: seq<(string, Schema)>, b: seq<(string, Schema)>, path: string)
    ensures FieldErrors(es, a + b, path) == FieldErrors(es, a, path) + FieldErrors(es, b, path)
    decreases a
  {
    if a == [] {
      assert a + b == b;
    } else {
      assert (a + b)[1..] == a[1..] + b;
      FieldsConcatenate(es, a[1..], b, path);
    }
  }

  /** `{"name": "x"}` against `{"name": str, "age": int}` gives one message. */
  lemma MissingAgeSample()
    ensures Errors(Map([("name", Str("x"))]), Obj([("name", TStr), ("age", TInt)]), "") == ["/age: missing"]
  {
    var es: Entries := [("name", Str("x"))];
    var fields := [("name", TStr), ("age", TInt)];
    assert Lookup(es, "name") == Some(Str("x"));
    assert FieldError(es, fields[0], "") == [];
    assert Lookup(es, "age") == None;
    assert "" + "/" + "age" + ": missing" == "/age: missing";
    assert FieldError(es, fields[1], "") == ["/age: missing"];
    assert fields[1..][1..] == [];
    assert FieldErrors(es, fields[1..], "") == ["/age: missing"];
  }

  // ---------------------------------------------------------------------
  // The validator and its shared list of messages.

  /** The `errors` list and the nested `_validate` that appends to it. */
  class Validator {
    var errors: seq<string>

    constructor()
      ensures errors == []
    {
      errors := [];
    }

    /** `_validate(value, sch, path)`. */
    method Validate(value: Value, sch: Schema, path: string)
      modifies this
      ensures errors == old(errors) + Errors(value, sch, path)
      decreases sch, 0
    {
      match sch {
        case Obj(fields) =>
          if !value.Map? {
            errors := errors + [(if path == "" then "/" else path) + ": expected object"];
            return;
          }
          var k := 0;
          while k < |fields|
            invariant FieldsPending(errors, old(errors), value.entries, fields, k, path)
            decreases |fields| - k
          {
            FieldsStep(errors, old(errors), value.entries, fields, k, path);
            Field(value.entries, fields[k], path);
            k := k + 1;
          }
          FieldsDone(errors, old(errors), value.entries, fields, path);
        case Lst(elems) =>
          if !value.List? {
            errors := errors + [path + ": expected list"];
            return;
          }
          var check := elems != [] && Truthy(elems[0]);
          var idx := 0;
          while idx < |value.items|
            invariant check ==> ItemsPending(errors, old(errors), value.items, elems[0], idx, path)
            invariant !check ==> errors == old(errors)
            decreases |value.items| - idx
          {
            if check {
              ItemsStep(errors, old(errors), value.items, elems[0], idx, path);
              Item(value.items[idx], elems[0], path, idx);
            }
            idx := idx + 1;
          }
          if check {
            ItemsDone(errors, old(errors), value.items, elems[0], path);
          }
        case TInt =>
          if !(value.Int? || value.Bool?) { errors := errors + [path + ": expected int"]; }
        case TFloat =>
          if !value.Float? { errors := errors + [path + ": expected float"]; }
        case TStr =>
          if !value.Str? { errors := errors + [path + ": expected str"]; }
        case TBool =>
          if !value.Bool? { errors := errors + [path + ": expected bool"]; }
        case TNull =>
          if !value.Null? { errors := errors + [path + ": expected null"]; }
        case Pred(f) =>
          var res := f(value);
          if res.Raised? {
            errors := errors + [path + ": custom validator exception"];
          } else if !res.holds {
            errors := errors + [path + ": custom validator failed"];
          }
      }
    }

    /** One required key of the dict schema: `missing`, or its value checked. */
    method Field(es: Entries, field: (string, Schema), path: string)
      modifies this
      ensures errors == old(errors) + FieldError(es, field, path)
      decreases field, 1
    {
      var key, sub := field.0, field.1;
      var found := Lookup(es, key);
      if found.None? {
        errors := errors + [path + "/" + key + ": missing"];
      } else {
        Validate(found.value, sub, path + "/" + key);
      }
    }

    /** One list item, checked against the element schema. */
    method Item(item: Value, sub: Schema, path: string, idx: nat)
      modifies this
      ensures errors == old(errors) + Errors(item, sub, ItemPath(path, idx))
      decreases sub, 1
    {
      Validate(item, sub, path + "[" + NatToString(idx) + "]");
    }
  }

  /** The messages so far, then those of the keys from `k` on, are all of them. */
  predicate FieldsPending(errors: seq<string>, before: seq<string>, es: Entries, fields: seq<(string, Schema)>, k: nat, path: string)
  {
    k <= |fields| && errors + FieldErrors(es, fields[k..], path) == before + FieldErrors(es, fields, path)
  }

  lemma FieldsStep(errors: seq<string>, before: seq<string>, es: Entries, fields: seq<(string, Schema)>, k: nat, path: string)
    requires FieldsPending(errors, before, es, fields, k, path) && k < |fields|
    ensures FieldsPending(errors + FieldError(es, fields[k], path), before, es, fields, k + 1, path)
  {
    assert fields[k..][1..] == fields[k + 1..];
  }

  lemma FieldsDone(errors: seq<string>, before: seq<string>, es: Entries, fields: seq<(string, Schema)>, path: string)
    requires FieldsPending(errors, before, es, fields, |fields|, path)
    ensures errors == before + FieldErrors(es, fields, path)
  {
    assert fields[|fields|..] == [];
  }

  /** The messages so far, then those of the items from `idx` on, are all of them. */
  predicate ItemsPending(errors: seq<string>, before: seq<string>, items: seq<Value>, sub: Schema, idx: nat, path: string)
  {
    idx <= |items| && errors + ItemErrors(items[idx..], sub, path, idx) == before + ItemErrors(items, sub, path, 0)
  }

  lemma ItemsStep(errors: seq<string>, before: seq<string>, items: seq<Value>, sub: Schema, idx: nat, path: string)
    requires ItemsPending(errors, before, items, sub, idx, path) && idx < |items|
    ensures ItemsPending(errors + Errors(items[idx], sub, ItemPath(path, idx)), before, items, sub, idx + 1, path)
  {
    assert items[idx..][1..] == items[idx + 1..];
  }

  lemma ItemsDone(errors: seq<string>, before: seq<string>, items: seq<Value>, sub: Schema, path: string)
    requires ItemsPending(errors, before, items, sub, |items|, path)
    ensures errors == before + ItemErrors(items, sub, path, 0)
  {
    assert items[|items|..] == [];
  }

  /** `validate_schema(obj, schema)`: the messages for the whole value, at the empty path. */
  method ValidateSchema(obj: Value, schema: Schema) returns (errs: seq<string>)
    ensures errs == Errors(obj, schema, "")
    ensures errs == [] <==> Conforms(obj, schema)
  {
    var v := new Validator();
    v.Validate(obj, schema, "");
    errs := v.errors;
    NoErrorsIffConforms(obj, schema, "");
  }
}
