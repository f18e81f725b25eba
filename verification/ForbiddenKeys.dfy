/** The worklist scans that keep private material out of requests and manifests
    (relayer/src/v2-service.ts:478-494, api/src/passport-v2/deployment-manifest.ts:496-532). */
module ForbiddenKeys {
  import opened JsText
  import opened Canonical

  /** Some member at or below this value has a forbidden key. */
  predicate Tainted(v: Json, forbidden: Text -> bool)
  {
    match v
    case Arr(items) => exists i :: 0 <= i < |items| && Tainted(items[i], forbidden)
    case Obj(fields) => exists i :: 0 <= i < |fields| && (forbidden(fields[i].key) || Tainted(fields[i].val, forbidden))
    case _ => false
  }

  /** Following the positions of a path ends at a member with a forbidden key. */
  predicate ForbiddenAt(v: Json, path: seq<nat>, forbidden: Text -> bool)
    decreases |path|
  {
    path != [] &&
    match v
    case Arr(items) => path[0] < |items| && ForbiddenAt(items[path[0]], path[1..], forbidden)
    case Obj(fields) =>
      path[0] < |fields| && if |path| == 1 then forbidden(fields[path[0]].key) else ForbiddenAt(fields[path[0]].val, path[1..], forbidden)
    case _ => false
  }

  lemma {:induction false} PathTaints(v: Json, path: seq<nat>, forbidden: Text -> bool)
    requires ForbiddenAt(v, path, forbidden)
    ensures Tainted(v, forbidden)
    decreases |path|
  {
    match v
    case Arr(items) => PathTaints(items[path[0]], path[1..], forbidden);
    case Obj(fields) => if |path| > 1 { PathTaints(fields[path[0]].val, path[1..], forbidden); }
    case _ =>
  }

  lemma {:induction false} TaintHasPath(v: Json, forbidden: Text -> bool) returns (path: seq<nat>)
    requires Tainted(v, forbidden)
    ensures ForbiddenAt(v, path, forbidden)
  {
    match v
    case Arr(items) =>
      var i: nat :| i < |items| && Tainted(items[i], forbidden);
      var rest := TaintHasPath(items[i], forbidden);
      path := [i] + rest;
      assert path[1..] == rest;
    case Obj(fields) =>
      var i: nat :| i < |fields| && (forbidden(fields[i].key) || Tainted(fields[i].val, forbidden));
      if forbidden(fields[i].key) { path := [i]; }
      else {
        var rest := TaintHasPath(fields[i].val, forbidden);
        path := [i] + rest;
        assert path[1..] == rest;
      }
  }

  ghost predicate HasForbiddenPath(v: Json, forbidden: Text -> bool)
  {
    exists path :: ForbiddenAt(v, path, forbidden)
  }

  lemma TaintedIffPath(v: Json, forbidden: Text -> bool)
    ensures Tainted(v, forbidden) <==> HasForbiddenPath(v, forbidden)
  {
    if Tainted(v, forbidden) {
      var path := TaintHasPath(v, forbidden);
      assert ForbiddenAt(v, path, forbidden);
    }
    if path :| ForbiddenAt(v, path, forbidden) { PathTaints(v, path, forbidden); }
  }

  // ------------------------------------------------------------- the worklist

  predicate AnyTainted(pending: seq<Json>, forbidden: Text -> bool)
  {
    exists i :: 0 <= i < |pending| && Tainted(pending[i], forbidden)
  }

  function Size(v: Json): (n: nat)
    ensures n >= 1
  {
    match v
    case Arr(items) => 1 + SizeOf(items)
    case Obj(fields) => 1 + SizeOfFields(fields)
    case _ => 1
  }

  function SizeOf(items: seq<Json>): nat
  {
    if items == [] then 0 else SizeOf(items[..|items| - 1]) + Size(items[|items| - 1])
  }

  function SizeOfFields(fields: seq<Field>): nat
  {
    if fields == [] then 0 else SizeOfFields(fields[..|fields| - 1]) + Size(fields[|fields| - 1].val)
  }

  lemma {:induction false} SizeOfConcat(a: seq<Json>, b: seq<Json>)
    ensures SizeOf(a + b) == SizeOf(a) + SizeOf(b)
  {
    if b == [] { assert a + b == a; }
    else {
      assert (a + b)[..|a + b| - 1] == a + b[..|b| - 1];
      SizeOfConcat(a, b[..|b| - 1]);
    }
  }

  lemma AnyTaintedConcat(a: seq<Json>, b: seq<Json>, forbidden: Text -> bool)
    ensures AnyTainted(a + b, forbidden) <==> AnyTainted(a, forbidden) || AnyTainted(b, forbidden)
  {
    var c := a + b;
    if i :| 0 <= i < |a| && Tainted(a[i], forbidden) { assert c[i] == a[i]; }
    if i :| 0 <= i < |b| && Tainted(b[i], forbidden) { assert c[|a| + i] == b[i]; }
  }

  lemma PushChild(children: seq<Json>, child: Json, forbidden: Text -> bool)
    ensures AnyTainted(children + [child], forbidden) <==> AnyTainted(children, forbidden) || Tainted(child, forbidden)
    ensures SizeOf(children + [child]) == SizeOf(children) + Size(child)
  {
    AnyTaintedConcat(children, [child], forbidden);
    assert (children + [child])[..|children|] == children && [child][0] == child;
  }

  predicate SomeChildTainted(fields: seq<Field>, n: nat, forbidden: Text -> bool)
    requires n <= |fields|
  {
    exists i :: 0 <= i < n && Tainted(fields[i].val, forbidden)
  }

  lemma NextChild(fields: seq<Field>, k: nat, forbidden: Text -> bool)
    requires k < |fields|
    ensures SomeChildTainted(fields, k + 1, forbidden) <==> SomeChildTainted(fields, k, forbidden) || Tainted(fields[k].val, forbidden)
    ensures SizeOfFields(fields[..k + 1]) == SizeOfFields(fields[..k]) + Size(fields[k].val)
  {
    assert fields[..k + 1][..k] == fields[..k];
  }

  /** The inner loop: false if a key is forbidden, and otherwise the object and array children. */
  method ScanFields(fields: seq<Field>, forbidden: Text -> bool) returns (clean: bool, children: seq<Json>)
    ensures clean <==> forall i | 0 <= i < |fields| :: !forbidden(fields[i].key)
    ensures clean ==> (Tainted(Obj(fields), forbidden) <==> AnyTainted(children, forbidden))
    ensures clean ==> SizeOf(children) <= SizeOfFields(fields)
  {
    children := [];
    for k := 0 to |fields|
      invariant forall i | 0 <= i < k :: !forbidden(fields[i].key)
      invariant AnyTainted(children, forbidden) <==> SomeChildTainted(fields, k, forbidden)
      invariant SizeOf(children) <= SizeOfFields(fields[..k])
    {
      if forbidden(fields[k].key) {
        return false, [];
      }
      var child := fields[k].val;
      NextChild(fields, k, forbidden);
      if child.Arr? || child.Obj? {
        PushChild(children, child, forbidden);
        children := children + [child];
      }
    }
    assert fields[..|fields|] == fields;
    return true, children;
  }

  /** One round of the outer loop: false if the value popped has a forbidden key itself, and otherwise what
      is pushed in its place. */
  method Unfold(item: Json, forbidden: Text -> bool) returns (clean: bool, children: seq<Json>)
    ensures !clean ==> Tainted(item, forbidden)
    ensures clean ==> (Tainted(item, forbidden) <==> AnyTainted(children, forbidden)) && SizeOf(children) < Size(item)
  {
    match item
    case Arr(items) => return true, items;
    case Obj(fields) => clean, children := ScanFields(fields, forbidden);
    case _ => return true, [];
  }

  lemma PopSplits(pending: seq<Json>, forbidden: Text -> bool)
    requires pending != []
    ensures var rest, item := pending[..|pending| - 1], pending[|pending| - 1];
            && SizeOf(pending) == SizeOf(rest) + Size(item)
            && (AnyTainted(pending, forbidden) <==> AnyTainted(rest, forbidden) || Tainted(item, forbidden))
  {
    var rest, item := pending[..|pending| - 1], pending[|pending| - 1];
    if i :| 0 <= i < |rest| && Tainted(rest[i], forbidden) { assert pending[i] == rest[i]; }
    if i :| 0 <= i < |pending| && Tainted(pending[i], forbidden) { assert i < |rest| ==> rest[i] == pending[i]; }
  }

  /** The scan passes exactly when no path into the value, however deep, ends at a forbidden key. */
  method NoForbiddenKeys(value: Json, forbidden: Text -> bool) returns (ok: bool)
    ensures ok <==> !HasForbiddenPath(value, forbidden)
  {
    TaintedIffPath(value, forbidden);
    var pending := [value];
    assert pending[0] == value;
    while pending != []
      invariant Tainted(value, forbidden) <==> AnyTainted(pending, forbidden)
      decreases SizeOf(pending)
    {
      PopSplits(pending, forbidden);
      var item, rest := pending[|pending| - 1], pending[..|pending| - 1];
      var clean, children := Unfold(item, forbidden);
      if !clean {
        return false;
      }
      AnyTaintedConcat(rest, children, forbidden);
      SizeOfConcat(rest, children);
      pending := rest + children;
    }
    return true;
  }
}
