/** JSON values, lookups along key paths, and JSON Merge Patch (section 2 of RFC 7396). */
module Json {
  import opened Bytes

  type Key = string

  datatype Value =
    | Null
    | Bool(bool)
    | Number(text: string)
    | String(string)
    | Array(items: seq<Value>)
    | Object(fields: map<Key, Value>)

  /** The value at `path`, following object keys. */
  function Lookup(v: Value, path: seq<Key>): Option<Value> {
    if path == [] then Some(v)
    else if v.Object? && path[0] in v.fields then Lookup(v.fields[path[0]], path[1..])
    else None
  }

  function FieldsOf(v: Value): map<Key, Value> {
    if v.Object? then v.fields else map[]
  }

  function Field(v: Value, key: Key): Value {
    if v.Object? && key in v.fields then v.fields[key] else Null
  }

  /** `json_patch::merge`: a non-object patch replaces, a null member deletes, anything else merges. */
  function Merge(target: Value, patch: Value): (r: Value)
    ensures patch.Object? ==> r.Object?
    decreases patch
  {
    if !patch.Object? then patch
    else
      var kept := map k | k in FieldsOf(target) && k !in patch.fields :: FieldsOf(target)[k];
      var merged := map k | k in patch.fields && !patch.fields[k].Null? :: Merge(Field(target, k), patch.fields[k]);
      Object(kept + merged)
  }

  /** The merge seen at one key. */
  lemma MergeAt(target: Value, patch: Value, key: Key)
    requires patch.Object?
    ensures var r := Merge(target, patch);
      && (key !in patch.fields ==> (key in r.fields <==> key in FieldsOf(target))
                                   && (key in r.fields ==> r.fields[key] == FieldsOf(target)[key]))
      && (key in patch.fields ==> (key in r.fields <==> !patch.fields[key].Null?)
                                  && (key in r.fields ==> r.fields[key] == Merge(Field(target, key), patch.fields[key])))
  {
  }

  /** `v` and `w` say the same about `path`: they share its keys, and agree where it leaves them. */
  ghost predicate SameAlong(v: Value, w: Value, path: seq<Key>)
    requires path != []
    decreases |path|
  {
    && v.Object? && w.Object?
    && (path[0] in v.fields <==> path[0] in w.fields)
    && (path[0] in v.fields ==>
          || v.fields[path[0]] == w.fields[path[0]]
          || (|path| > 1 && SameAlong(v.fields[path[0]], w.fields[path[0]], path[1..])))
  }

  lemma {:induction false} SameAlongTransitive(u: Value, v: Value, w: Value, path: seq<Key>)
    requires path != [] && SameAlong(u, v, path) && SameAlong(v, w, path)
    ensures SameAlong(u, w, path)
    decreases |path|
  {
    if path[0] in u.fields && |path| > 1 {
      var a, b, c := u.fields[path[0]], v.fields[path[0]], w.fields[path[0]];
      if a != b && b != c {
        SameAlongTransitive(a, b, c, path[1..]);
      }
    }
  }

  /** Patches that say the same about a path lead to the same value there. */
  lemma {:induction false} MergeSameAlong(doc: Value, v: Value, w: Value, path: seq<Key>)
    requires path != [] && SameAlong(v, w, path)
    ensures Lookup(Merge(doc, v), path) == Lookup(Merge(doc, w), path)
    decreases |path|
  {
    var k := path[0];
    MergeAt(doc, v, k);
    MergeAt(doc, w, k);
    hide Merge;
    if k in v.fields && v.fields[k] != w.fields[k] {
      MergeSameAlong(Field(doc, k), v.fields[k], w.fields[k], path[1..]);
    }
  }

  /** An object that leaves `path` alone: somewhere along it, the next key is missing. */
  ghost predicate Silent(v: Value, path: seq<Key>)
    requires path != []
    decreases |path|
  {
    && v.Object?
    && (path[0] in v.fields ==> |path| > 1 && Silent(v.fields[path[0]], path[1..]))
  }

  /** A patch that is silent about a path leaves what is there, whatever the document holds along the way. */
  lemma {:induction false} SilentMerge(doc: Value, patch: Value, path: seq<Key>)
    requires path != [] && Silent(patch, path)
    ensures Lookup(Merge(doc, patch), path) == Lookup(doc, path)
    decreases |path|
  {
    var k := path[0];
    MergeAt(doc, patch, k);
    hide Merge;
    if k in patch.fields {
      SilentMerge(Field(doc, k), patch.fields[k], path[1..]);
    }
  }

  /** A patch's own value at a path, neither an object nor null, ends up there; a null leaves nothing there. */
  lemma {:induction false} PatchedValue(doc: Value, patch: Value, path: seq<Key>)
    requires Lookup(patch, path).Some? && !Lookup(patch, path).value.Object? && path != []
    ensures Lookup(Merge(doc, patch), path)
         == if Lookup(patch, path).value.Null? then None else Lookup(patch, path)
    decreases |path|
  {
    var k := path[0];
    MergeAt(doc, patch, k);
    hide Merge;
    if |path| > 1 {
      PatchedValue(Field(doc, k), patch.fields[k], path[1..]);
    } else {
      assert path[1..] == [];
      Replaced(Field(doc, k), patch.fields[k]);
    }
  }

  lemma Replaced(doc: Value, patch: Value)
    requires !patch.Object?
    ensures Merge(doc, patch) == patch
  {
  }

  /** `v` with the existing value at `path` overwritten. */
  function Replace(v: Value, path: seq<Key>, x: Value): Value
    requires Lookup(v, path).Some?
    decreases |path|
  {
    if path == [] then x
    else Object(v.fields[path[0] := Replace(v.fields[path[0]], path[1..], x)])
  }

  /** One more step down: the value at `path + [key]` is the member `key` of the value at `path`. */
  lemma {:induction false} Deeper(v: Value, path: seq<Key>, key: Key, x: Value)
    requires Lookup(v, path).Some? && Lookup(v, path).value.Object? && key in Lookup(v, path).value.fields
    ensures var inner := Lookup(v, path).value;
      && Lookup(v, path + [key]) == Some(inner.fields[key])
      && Replace(v, path + [key], x) == Replace(v, path, Object(inner.fields[key := x]))
    decreases |path|
  {
    if path == [] {
      assert path + [key] == [key];
      assert [key][1..] == [];
    } else {
      assert (path + [key])[1..] == path[1..] + [key];
      Deeper(v.fields[path[0]], path[1..], key, x);
    }
  }

  lemma {:induction false} ReplaceSame(v: Value, path: seq<Key>)
    requires Lookup(v, path).Some?
    ensures Replace(v, path, Lookup(v, path).value) == v
    decreases |path|
  {
    if path != [] {
      ReplaceSame(v.fields[path[0]], path[1..]);
    }
  }

  /** Neither path is a prefix of the other. */
  predicate Diverges(p: seq<Key>, q: seq<Key>)
    decreases |p|
  {
    p != [] && q != [] && (p[0] != q[0] || Diverges(p[1..], q[1..]))
  }

  /** Overwriting at one path shows there, and nowhere on a diverging path. */
  lemma {:induction false} ReplaceLookup(v: Value, path: seq<Key>, x: Value, q: seq<Key>)
    requires Lookup(v, path).Some?
    ensures Lookup(Replace(v, path, x), path) == Some(x)
    ensures Diverges(path, q) ==> Lookup(Replace(v, path, x), q) == Lookup(v, q)
    decreases |path|
  {
    if path != [] {
      ReplaceLookup(v.fields[path[0]], path[1..], x, if q == [] then [] else q[1..]);
    }
  }
}
