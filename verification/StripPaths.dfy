/** Removing protected paths from a configuration patch before it is merged. */
module PathStripping {
  import opened Bytes
  import opened Json

  /** The keys of a dotted path: splitting gives at least one. */
  type KeyPath = p: seq<Key> | p != [] witness [""]

  /** One path stripped: its last key goes, and so does a non-object standing in for one of its parents. */
  function StripPath(v: Value, path: seq<Key>): (r: Value)
    requires path != []
    ensures v.Object? ==> r.Object?
    decreases |path|
  {
    if !v.Object? then v
    else if |path| == 1 then Object(v.fields - {path[0]})
    else if path[0] !in v.fields then v
    else if !v.fields[path[0]].Object? then Object(v.fields - {path[0]})
    else Object(v.fields[path[0] := StripPath(v.fields[path[0]], path[1..])])
  }

  function StripAll(v: Value, paths: seq<KeyPath>): (r: Value)
    ensures v.Object? ==> r.Object?
    decreases |paths|
  {
    if paths == [] then v else StripAll(StripPath(v, paths[0]), paths[1..])
  }

  /** Walking a cursor down one path until a key has to be removed there, or the path leads nowhere. */
  method StripOne(v: Value, path: seq<Key>) returns (r: Value)
    requires path != []
    ensures r == StripPath(v, path)
  {
    var cursor := v;
    var i := 0;
    assert path[..0] == [] && path[0..] == path;
    while true
      invariant 0 <= i < |path|
      invariant Lookup(v, path[..i]) == Some(cursor)
      invariant StripPath(v, path) == Replace(v, path[..i], StripPath(cursor, path[i..]))
      decreases |path| - i
    {
      ReplaceSame(v, path[..i]);
      if !cursor.Object? {
        return v;
      }
      var fields := cursor.fields;
      var part := path[i];
      if i + 1 == |path| || (part in fields && !fields[part].Object?) {
        return Replace(v, path[..i], Object(fields - {part}));
      }
      if part !in fields {
        return v;
      }
      assert path[i..][1..] == path[i + 1..];
      assert path[..i + 1] == path[..i] + [part];
      Deeper(v, path[..i], part, StripPath(fields[part], path[i + 1..]));
      cursor := fields[part];
      i := i + 1;
    }
  }

  method StripPaths(value: Value, paths: seq<KeyPath>) returns (r: Value)
    ensures r == StripAll(value, paths)
  {
    r := value;
    for i := 0 to |paths|
      invariant StripAll(value, paths) == StripAll(r, paths[i..])
    {
      assert paths[i..][1..] == paths[i + 1..];
      r := StripOne(r, paths[i]);
    }
  }

  // ----- listed paths are protected

  lemma {:induction false} StripSilences(v: Value, path: seq<Key>)
    requires path != [] && v.Object?
    ensures Silent(StripPath(v, path), path)
    decreases |path|
  {
    if |path| > 1 && path[0] in v.fields && v.fields[path[0]].Object? {
      StripSilences(v.fields[path[0]], path[1..]);
    }
  }

  lemma {:induction false} StripKeepsSilence(v: Value, path: seq<Key>, other: seq<Key>)
    requires path != [] && other != [] && Silent(v, path)
    ensures Silent(StripPath(v, other), path)
    decreases |path|
  {
    if path[0] in v.fields && other[0] == path[0] && |other| > 1 {
      StripKeepsSilence(v.fields[path[0]], path[1..], other[1..]);
    }
  }

  lemma {:induction false} StripAllKeepsSilence(v: Value, path: seq<Key>, paths: seq<KeyPath>)
    requires path != [] && Silent(v, path)
    ensures Silent(StripAll(v, paths), path)
    decreases |paths|
  {
    if paths != [] {
      StripKeepsSilence(v, path, paths[0]);
      StripAllKeepsSilence(StripPath(v, paths[0]), path, paths[1..]);
    }
  }

  lemma {:induction false} ListedIsSilent(patch: Value, paths: seq<KeyPath>, path: seq<Key>)
    requires path in paths && patch.Object?
    ensures Silent(StripAll(patch, paths), path)
    decreases |paths|
  {
    if paths[0] == path {
      StripSilences(patch, path);
      StripAllKeepsSilence(StripPath(patch, path), path, paths[1..]);
    } else {
      ListedIsSilent(StripPath(patch, paths[0]), paths[1..], path);
    }
  }

  /**
   For every document, every list of paths and every object patch, merging the
   stripped patch leaves what is at each listed path as it was.
   */
  lemma ProtectedPathsSurvive(doc: Value, patch: Value, paths: seq<KeyPath>, path: seq<Key>)
    requires path in paths && patch.Object?
    ensures Lookup(Merge(doc, StripAll(patch, paths)), path) == Lookup(doc, path)
  {
    ListedIsSilent(patch, paths, path);
    SilentMerge(doc, StripAll(patch, paths), path);
  }

  lemma {:induction false} StripScalar(v: Value, paths: seq<KeyPath>)
    requires !v.Object?
    ensures StripAll(v, paths) == v
    decreases |paths|
  {
    if paths != [] {
      StripScalar(v, paths[1..]);
    }
  }

  /** A patch that is not an object protects a listed path only if there was nothing to protect. */
  lemma NonObjectPatch(doc: Value, patch: Value, paths: seq<KeyPath>, path: seq<Key>)
    requires path in paths && !patch.Object?
    ensures Lookup(Merge(doc, StripAll(patch, paths)), path) == Lookup(doc, path) <==> Lookup(doc, path).None?
  {
    StripScalar(patch, paths);
  }

  // ----- everything else merges as before

  /** Along `path`, and as far as `q` goes with it, the patch has a non-object where `path` needs a parent. */
  predicate ScalarParent(v: Value, path: seq<Key>, q: seq<Key>)
    decreases |path|
  {
    && v.Object? && |path| > 1 && q != [] && path[0] == q[0] && path[0] in v.fields
    && (!v.fields[path[0]].Object? || ScalarParent(v.fields[path[0]], path[1..], q[1..]))
  }

  lemma {:induction false} StripSameAlong(v: Value, path: seq<Key>, q: seq<Key>)
    requires v.Object? && Diverges(path, q) && !ScalarParent(v, path, q)
    ensures SameAlong(v, StripPath(v, path), q)
    decreases |path|
  {
    if path[0] == q[0] && path[0] in v.fields {
      StripSameAlong(v.fields[path[0]], path[1..], q[1..]);
    }
  }

  /** A removed parent takes `q` with it: the patch has nothing left to say about `q`. */
  lemma {:induction false} StripCuts(v: Value, path: seq<Key>, q: seq<Key>)
    requires Diverges(path, q) && ScalarParent(v, path, q)
    ensures Silent(StripPath(v, path), q)
    decreases |path|
  {
    if v.fields[path[0]].Object? {
      StripCuts(v.fields[path[0]], path[1..], q[1..]);
    }
  }

  lemma {:induction false} ScalarParentSame(v: Value, w: Value, path: seq<Key>, q: seq<Key>)
    requires q != [] && SameAlong(v, w, q) && Diverges(path, q)
    ensures ScalarParent(v, path, q) <==> ScalarParent(w, path, q)
    decreases |path|
  {
    if path[0] == q[0] && path[0] in v.fields && |path| > 1 {
      if v.fields[path[0]] != w.fields[path[0]] {
        ScalarParentSame(v.fields[path[0]], w.fields[path[0]], path[1..], q[1..]);
      }
    }
  }

  predicate Unlisted(paths: seq<KeyPath>, q: seq<Key>) {
    forall i :: 0 <= i < |paths| ==> Diverges(paths[i], q)
  }

  predicate Cut(patch: Value, paths: seq<KeyPath>, q: seq<Key>) {
    exists i :: 0 <= i < |paths| && ScalarParent(patch, paths[i], q)
  }

  lemma {:induction false} StripAllAlong(v: Value, paths: seq<KeyPath>, q: seq<Key>)
    requires v.Object? && q != [] && Unlisted(paths, q)
    ensures !Cut(v, paths, q) ==> SameAlong(v, StripAll(v, paths), q)
    ensures Cut(v, paths, q) ==> Silent(StripAll(v, paths), q)
    decreases |paths|
  {
    if paths != [] {
      var p, rest := paths[0], paths[1..];
      assert forall i :: 0 <= i < |rest| ==> rest[i] == paths[i + 1];
      var w := StripPath(v, p);
      if ScalarParent(v, p, q) {
        StripCuts(v, p, q);
        StripAllKeepsSilence(w, q, rest);
      } else {
        StripSameAlong(v, p, q);
        CutSame(v, w, rest, q);
        StripAllAlong(w, rest, q);
        hide ScalarParent, SameAlong, StripPath, StripAll, Diverges;
        CutTail(v, paths, q);
        if !Cut(v, paths, q) {
          SameAlongTransitive(v, w, StripAll(w, rest), q);
        }
        StripAllUnfold(v, paths);
      }
    }
  }

  lemma CutTail(v: Value, paths: seq<KeyPath>, q: seq<Key>)
    requires paths != [] && !ScalarParent(v, paths[0], q)
    ensures Cut(v, paths, q) <==> Cut(v, paths[1..], q)
  {
    hide ScalarParent;
    var rest := paths[1..];
    if Cut(v, paths, q) {
      var i :| 0 <= i < |paths| && ScalarParent(v, paths[i], q);
      assert ScalarParent(v, rest[i - 1], q);
    }
    if Cut(v, rest, q) {
      var i :| 0 <= i < |rest| && ScalarParent(v, rest[i], q);
      assert ScalarParent(v, paths[i + 1], q);
    }
  }

  lemma StripAllUnfold(v: Value, paths: seq<KeyPath>)
    requires paths != []
    ensures StripAll(v, paths) == StripAll(StripPath(v, paths[0]), paths[1..])
  {
  }

  lemma CutSame(v: Value, w: Value, paths: seq<KeyPath>, q: seq<Key>)
    requires q != [] && SameAlong(v, w, q) && Unlisted(paths, q)
    ensures Cut(v, paths, q) <==> Cut(w, paths, q)
  {
    hide SameAlong, ScalarParent, Diverges;
    forall i | 0 <= i < |paths|
      ensures ScalarParent(v, paths[i], q) <==> ScalarParent(w, paths[i], q)
    {
      ScalarParentSame(v, w, paths[i], q);
    }
  }

  /**
   A key path unrelated to every listed one merges exactly as without
   stripping, unless the patch put a non-object in place of a parent it
   shares with a listed path; then stripping keeps the document's value instead.
   */
  lemma UnlistedPathsMerge(doc: Value, patch: Value, paths: seq<KeyPath>, q: seq<Key>)
    requires patch.Object? && q != [] && Unlisted(paths, q)
    ensures Lookup(Merge(doc, StripAll(patch, paths)), q)
         == if Cut(patch, paths, q) then Lookup(doc, q) else Lookup(Merge(doc, patch), q)
  {
    hide *;
    StripAllAlong(patch, paths, q);
    if Cut(patch, paths, q) {
      SilentMerge(doc, StripAll(patch, paths), q);
    } else {
      MergeSameAlong(doc, patch, StripAll(patch, paths), q);
    }
  }
}
