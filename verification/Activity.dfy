/** Merging a batch of activities: file events of the same kind and user, close in time, become one. */
module ActivityMerging {
  import opened Bytes
  import opened Json

  type Uuid = nat

  /** The events that are merged, and all others. */
  datatype Event =
    | SftpWrite | SftpRead | SftpCreate | SftpCreateDirectory | SftpRename | SftpDelete
    | FileUploaded
    | Other(code: nat)

  /** `timestamp` is in nanoseconds. */
  datatype Activity = Activity(
    user: Option<Uuid>,
    event: Event,
    metadata: Option<Value>,
    ip: Option<string>,
    schedule: Option<Uuid>,
    timestamp: int)

  function Member(a: Activity, key: string): Option<Value> {
    if a.metadata.Some? && a.metadata.value.Object? && key in a.metadata.value.fields
    then Some(a.metadata.value.fields[key])
    else None
  }

  /** What is merged together; `Alone` activities pass through. */
  datatype Class = Sftp(event: Event, user: Option<Uuid>) | Upload(uploader: Option<Uuid>, directory: string) | Alone

  function Classify(a: Activity): Class {
    if !a.event.Other? && !a.event.FileUploaded? && Member(a, "files").Some? then Sftp(a.event, a.user)
    else if a.event.FileUploaded? && Member(a, "files").Some? then
      (match Member(a, "directory")
       case Some(String(directory)) => Upload(a.user, directory)
       case _ => Alone)
    else Alone
  }

  predicate IsSftp(e: Event) {
    e in {SftpWrite, SftpRead, SftpCreate, SftpCreateDirectory, SftpRename, SftpDelete}
  }

  /** The activity carries a `files` member; an upload must also name its directory. */
  predicate Mergeable(a: Activity) {
    && a.metadata.Some? && Lookup(a.metadata.value, ["files"]).Some?
    && (IsSftp(a.event) || (a.event == FileUploaded && Directory(a).Some?))
  }

  function Directory(a: Activity): Option<string> {
    if a.metadata.Some? then
      match Lookup(a.metadata.value, ["directory"])
      case Some(String(directory)) => Some(directory)
      case _ => None
    else None
  }

  /** What merged activities have in common: event and user, and for uploads the directory. */
  predicate Alike(a: Activity, b: Activity) {
    a.event == b.event && a.user == b.user && (a.event == FileUploaded ==> Directory(a) == Directory(b))
  }

  lemma MemberIsLookup(a: Activity, key: string)
    ensures Member(a, key) == if a.metadata.Some? then Lookup(a.metadata.value, [key]) else None
  {
    assert [key][1..] == [];
  }

  /** Activities are of one class exactly if they can be merged and are alike, or if neither can be merged. */
  lemma SameClassIff(a: Activity, b: Activity)
    ensures Classify(a) == Alone <==> !Mergeable(a)
    ensures Classify(a) == Classify(b) <==> (if Mergeable(a) && Mergeable(b) then Alike(a, b) else !Mergeable(a) && !Mergeable(b))
  {
    MemberIsLookup(a, "files");
    MemberIsLookup(b, "files");
    MemberIsLookup(a, "directory");
    MemberIsLookup(b, "directory");
    hide Lookup, Member;
  }

  const SECOND: int := 1_000_000_000

  /** `num_seconds`: whole seconds, towards zero. */
  function WholeSeconds(nanos: int): int {
    if nanos >= 0 then nanos / SECOND else -((-nanos) / SECOND)
  }

  function Abs(x: int): int { if x < 0 then -x else x }

  predicate Near(a: Activity, base: Activity) {
    Abs(WholeSeconds(a.timestamp - base.timestamp)) <= 60
  }

  /** Because seconds are truncated, the window is just short of 61 seconds, not 60. */
  lemma NearIff(a: Activity, base: Activity)
    ensures Near(a, base) <==> Abs(a.timestamp - base.timestamp) < 61 * SECOND
  {
  }

  function ExtractFiles(a: Activity): seq<Value> {
    match Member(a, "files")
    case Some(Array(items)) => items
    case _ => []
  }

  /** The files of an activity are the items of its `files` member if that is an array. */
  lemma FilesAreItems(a: Activity, items: seq<Value>)
    ensures a.metadata.Some? && Lookup(a.metadata.value, ["files"]) == Some(Array(items)) ==> ExtractFiles(a) == items
    ensures ExtractFiles(a) == items && items != [] ==> a.metadata.Some? && Lookup(a.metadata.value, ["files"]) == Some(Array(items))
  {
    MemberIsLookup(a, "files");
  }

  function Finalize(a: Activity, files: seq<Value>): (r: Activity) {
    if files == [] || Member(a, "files").None? then a
    else a.(metadata := Some(Object(a.metadata.value.fields["files" := Array(files)])))
  }

  /** Finalizing writes the `files` member of an activity that has one, and nothing else. */
  lemma FinalizeWrites(a: Activity, files: seq<Value>, path: seq<Key>)
    ensures var r := Finalize(a, files);
      && r == a.(metadata := r.metadata) && (r.metadata.Some? <==> a.metadata.Some?)
      && (a.metadata.Some? && path != [] && path[0] != "files" ==> Lookup(r.metadata.value, path) == Lookup(a.metadata.value, path))
      && (a.metadata.Some? && Lookup(a.metadata.value, ["files"]).Some? && files != [] ==>
            Lookup(r.metadata.value, ["files"]) == Some(Array(files)))
  {
    MemberIsLookup(a, "files");
    assert ["files"][1..] == [];
  }

  datatype Group = Group(base: Activity, files: seq<Value>) {
    function Emitted(): Activity {
      Finalize(base, files)
    }
  }

  function Begin(a: Activity): Group {
    Group(a, ExtractFiles(a))
  }

  // ----- one class at a time

  /** The activities of `s` in class `c`, in order. */
  function Of(s: seq<Activity>, c: Class): seq<Activity> {
    if s == [] then [] else (if Classify(s[0]) == c then [s[0]] else []) + Of(s[1..], c)
  }

  /** What a group in progress and the activities of its class still to come are merged into. */
  function MergeInto(g: Group, s: seq<Activity>): seq<Activity>
    decreases |s|
  {
    if s == [] then [g.Emitted()]
    else if Near(s[0], g.base) then MergeInto(g.(files := g.files + ExtractFiles(s[0])), s[1..])
    else [g.Emitted()] + MergeInto(Begin(s[0]), s[1..])
  }

  function MergeClass(s: seq<Activity>): seq<Activity> {
    if s == [] then [] else MergeInto(Begin(s[0]), s[1..])
  }

  lemma {:induction false} OfAppend(a: seq<Activity>, b: seq<Activity>, c: Class)
    ensures Of(a + b, c) == Of(a, c) + Of(b, c)
  {
    hide Classify;
    if a == [] {
      assert a + b == b;
    } else {
      assert (a + b)[1..] == a[1..] + b;
      OfAppend(a[1..], b, c);
      Associative(if Classify(a[0]) == c then [a[0]] else [], Of(a[1..], c), Of(b, c));
    }
  }

  lemma OfOne(a: Activity, c: Class)
    ensures Of([a], c) == if Classify(a) == c then [a] else []
  {
    assert [a][1..] == [];
  }

  lemma EmittedClass(g: Group)
    ensures Classify(g.Emitted()) == Classify(g.base)
    ensures g.Emitted().timestamp == g.base.timestamp
    ensures Classify(g.base) != Alone && g.files != [] ==> ExtractFiles(g.Emitted()) == g.files
  {
  }

  /** The outcome for class `c` while a group may be in progress. */
  function Pending(open: map<Class, Group>, c: Class, s: seq<Activity>): seq<Activity> {
    if c in open then MergeInto(open[c], s) else MergeClass(s)
  }

  ghost predicate OpenGroups(open: map<Class, Group>) {
    forall c <- open :: c != Alone && Classify(open[c].base) == c
  }

  /** The batch is handled up to here: each class is merged so far, the rest is ahead. */
  ghost predicate Progress(batch: seq<Activity>, merged: seq<Activity>, open: map<Class, Group>, ahead: seq<Activity>) {
    && OpenGroups(open)
    && (forall c: Class {:trigger Of(batch, c)} :: c != Alone ==> MergeClass(Of(batch, c)) == Of(merged, c) + Pending(open, c, Of(ahead, c)))
    && Of(batch, Alone) == Of(merged, Alone) + Of(ahead, Alone)
  }

  lemma Ahead(a: Activity, rest: seq<Activity>, c: Class)
    ensures Of([a] + rest, c) == (if Classify(a) == c then [a] else []) + Of(rest, c)
  {
    OfAppend([a], rest, c);
    OfOne(a, c);
  }

  lemma Pushed(merged: seq<Activity>, x: Activity, c: Class)
    ensures Of(merged + [x], c) == Of(merged, c) + (if Classify(x) == c then [x] else [])
  {
    OfAppend(merged, [x], c);
    OfOne(x, c);
  }

  /** An activity that merges with nothing is passed on at once. */
  lemma PassOn(batch: seq<Activity>, merged: seq<Activity>, open: map<Class, Group>, a: Activity, rest: seq<Activity>)
    requires Progress(batch, merged, open, [a] + rest) && Classify(a) == Alone
    ensures Progress(batch, merged + [a], open, rest)
  {
    hide Of, Classify, MergeInto, MergeClass;
    forall c: Class | c != Alone
      ensures MergeClass(Of(batch, c)) == Of(merged + [a], c) + Pending(open, c, Of(rest, c))
    {
      Ahead(a, rest, c);
      Pushed(merged, a, c);
      assert [] + Of(rest, c) == Of(rest, c) && Of(merged, c) + [] == Of(merged, c);
    }
    Ahead(a, rest, Alone);
    Pushed(merged, a, Alone);
    Associative(Of(merged, Alone), [a], Of(rest, Alone));
  }

  /** The next activity joins, replaces or starts the group of its class. */
  lemma Absorb(batch: seq<Activity>, merged: seq<Activity>, open: map<Class, Group>, a: Activity, rest: seq<Activity>,
               merged': seq<Activity>, open': map<Class, Group>)
    requires Progress(batch, merged, open, [a] + rest) && Classify(a) != Alone
    requires var c := Classify(a);
      if c !in open then merged' == merged && open' == open[c := Begin(a)]
      else if Near(a, open[c].base)
      then merged' == merged && open' == open[c := open[c].(files := open[c].files + ExtractFiles(a))]
      else merged' == merged + [open[c].Emitted()] && open' == open[c := Begin(a)]
    ensures Progress(batch, merged', open', rest)
  {
    var mine := Classify(a);
    if mine in open {
      EmittedClass(open[mine]);
    }
    hide Of, Classify, Near, ExtractFiles, Finalize;
    forall c: Class | c != Alone
      ensures MergeClass(Of(batch, c)) == Of(merged', c) + Pending(open', c, Of(rest, c))
    {
      Ahead(a, rest, c);
      assert c != mine ==> [] + Of(rest, c) == Of(rest, c);
      if mine in open && !Near(a, open[mine].base) {
        Pushed(merged, open[mine].Emitted(), c);
        assert Of(merged, c) + [] == Of(merged, c);
      }
      if c == mine {
        var s := [a] + Of(rest, c);
        assert s[0] == a && s[1..] == Of(rest, c);
        if mine in open && !Near(a, open[mine].base) {
          Associative(Of(merged, c), [open[mine].Emitted()], MergeInto(Begin(a), Of(rest, c)));
        }
      }
    }
    Ahead(a, rest, Alone);
    assert [] + Of(rest, Alone) == Of(rest, Alone);
    if mine in open && !Near(a, open[mine].base) {
      Pushed(merged, open[mine].Emitted(), Alone);
      assert Of(merged, Alone) + [] == Of(merged, Alone);
    }
  }

  /** At the end the groups in progress come out, in whatever order. */
  lemma ComeOut(batch: seq<Activity>, merged: seq<Activity>, open: map<Class, Group>, c: Class)
    requires Progress(batch, merged, open, []) && c in open
    ensures Progress(batch, merged + [open[c].Emitted()], open - {c}, [])
  {
    EmittedClass(open[c]);
    hide Classify, Near, ExtractFiles, Finalize;
    var x := open[c].Emitted();
    forall d: Class | d != Alone
      ensures MergeClass(Of(batch, d)) == Of(merged + [x], d) + Pending(open - {c}, d, Of([], d))
    {
      Pushed(merged, x, d);
      assert Of(merged, d) + [] == Of(merged, d);
      assert Of(merged + [x], d) + [] == Of(merged + [x], d);
    }
    Pushed(merged, x, Alone);
    assert Of(merged, Alone) + [] == Of(merged, Alone);
  }

  /** A group is in progress for each class met so far. */
  ghost predicate Seen(done: seq<Activity>, open: map<Class, Group>) {
    forall c: Class {:trigger c in open} {:trigger Of(done, c)} :: c in open <==> c != Alone && Of(done, c) != []
  }

  lemma SeenMore(done: seq<Activity>, a: Activity, open: map<Class, Group>, open': map<Class, Group>)
    requires Seen(done, open)
    requires open'.Keys == if Classify(a) == Alone then open.Keys else open.Keys + {Classify(a)}
    ensures Seen(done + [a], open')
  {
    hide Classify, Of;
    forall c: Class
      ensures c in open' <==> c != Alone && Of(done + [a], c) != []
    {
      assert c in open'.Keys <==> c in open';
      assert c in open <==> c != Alone && Of(done, c) != [];
      Pushed(done, a, c);
    }
  }

  /** `out` is one group for each class that was in progress and no longer is. */
  ghost predicate Out(out: seq<Activity>, was: map<Class, Group>, open: map<Class, Group>) {
    && open.Keys <= was.Keys && Alone !in was
    && (forall c: Class {:trigger Of(out, c)} :: |Of(out, c)| == if c in was && c !in open then 1 else 0)
  }

  lemma OutMore(out: seq<Activity>, was: map<Class, Group>, open: map<Class, Group>, c: Class, x: Activity)
    requires Out(out, was, open) && c in open && Classify(x) == c
    ensures Out(out + [x], was, open - {c})
  {
    hide Classify, Of;
    forall d: Class
      ensures |Of(out + [x], d)| == if d in was && d !in open - {c} then 1 else 0
    {
      Pushed(out, x, d);
    }
  }

  /** SFTP groups first, uploads after them. */
  ghost predicate SftpFirst(s: seq<Activity>) {
    && (forall i :: 0 <= i < |s| ==> Classify(s[i]) != Alone)
    && (forall i, j :: 0 <= i < j < |s| && Classify(s[j]).Sftp? ==> Classify(s[i]).Sftp?)
  }

  lemma SftpFirstMore(s: seq<Activity>, x: Activity)
    requires SftpFirst(s) && Classify(x) != Alone
    requires Classify(x).Sftp? ==> forall i :: 0 <= i < |s| ==> Classify(s[i]).Sftp?
    ensures SftpFirst(s + [x])
  {
    hide Classify;
  }

  /** Where the groups still in progress at the end of the batch stand: the last of each class, at the end of the result. */
  ghost predicate LeftoverLast(batch: seq<Activity>, merged: seq<Activity>, at: nat) {
    && at <= |merged| && SftpFirst(merged[at..])
    && (forall c: Class {:trigger Of(batch, c)} ::
          |Of(merged[at..], c)| == if c != Alone && Of(batch, c) != [] then 1 else 0)
  }

  method MergeActivities(batch: seq<Activity>) returns (merged: seq<Activity>, ghost at: nat)
    ensures forall c: Class {:trigger Of(merged, c)} :: c != Alone ==> Of(merged, c) == MergeClass(Of(batch, c))
    ensures Of(merged, Alone) == Of(batch, Alone)
    ensures LeftoverLast(batch, merged, at)
  {
    hide Progress, Near, Classify, ExtractFiles, Finalize, MergeClass, Of, Seen, Out, SftpFirst;
    merged := [];
    // the groups in progress of both kinds, by class
    var open: map<Class, Group> := map[];
    Start(batch);
    NothingSeen(batch);
    for i := 0 to |batch|
      invariant Progress(batch, merged, open, batch[i..]) && Seen(batch[..i], open)
    {
      var a := batch[i];
      assert batch[i..] == [a] + batch[i + 1..];
      assert batch[..i + 1] == batch[..i] + [a];
      var c := Classify(a);
      ghost var before, was := merged, open;
      if c == Alone {
        PassOn(batch, merged, open, a, batch[i + 1..]);
        merged := merged + [a];
      } else {
        if c in open {
          var existing := open[c];
          if Near(a, existing.base) {
            open := open[c := existing.(files := existing.files + ExtractFiles(a))];
          } else {
            open := open - {c};
            merged := merged + [Finalize(existing.base, existing.files)];
            open := open[c := Begin(a)];
            assert open == was[c := Begin(a)];
          }
        } else {
          open := open[c := Begin(a)];
        }
        Absorb(batch, before, was, a, batch[i + 1..], merged, open);
      }
      SeenMore(batch[..i], a, was, open);
    }
    assert batch[..|batch|] == batch;
    at := |merged|;
    ghost var was := open;
    NothingOut(batch, open);
    var sftp := set c <- open.Keys | c.Sftp?;
    assert merged[at..] == [];
    merged, open := ComeOutAll(batch, merged, open, sftp, at, was);
    UploadsLeft(merged[at..], was, open);
    merged, open := ComeOutAll(batch, merged, open, open.Keys, at, was);
    assert open == map[];
    Done(batch, merged);
    LeftoverIsLast(batch, merged, was, at);
  }

  ghost predicate AllSftp(merged: seq<Activity>, at: nat, classes: set<Class>) {
    (forall c <- classes :: c.Sftp?) && forall i :: at <= i < |merged| ==> Classify(merged[i]).Sftp?
  }

  /** Some of the groups in progress come out, in whatever order: the SFTP ones, then all that are left. */
  method ComeOutAll(batch: seq<Activity>, merged: seq<Activity>, open: map<Class, Group>, classes: set<Class>,
                    ghost at: nat, ghost was: map<Class, Group>)
    returns (merged': seq<Activity>, open': map<Class, Group>)
    requires Progress(batch, merged, open, []) && at <= |merged|
    requires Out(merged[at..], was, open) && SftpFirst(merged[at..])
    requires classes <= open.Keys
    requires AllSftp(merged, at, classes) || forall c <- classes :: c.Upload?
    ensures Progress(batch, merged', open', []) && at <= |merged'|
    ensures Out(merged'[at..], was, open') && SftpFirst(merged'[at..])
    ensures open' == open - classes
  {
    hide Progress, Classify, ExtractFiles, Finalize, Of, Out, SftpFirst;
    merged', open' := merged, open;
    var left := classes;
    ghost var sftp := AllSftp(merged, at, classes);
    while left != {}
      invariant left <= classes && open' == open - (classes - left)
      invariant Progress(batch, merged', open', []) && at <= |merged'|
      invariant Out(merged'[at..], was, open') && SftpFirst(merged'[at..])
      invariant sftp ==> AllSftp(merged', at, classes)
      decreases |left|
    {
      var c :| c in left;
      var x := Finalize(open'[c].base, open'[c].files);
      GroupClass(batch, merged', open', c);
      ComeOut(batch, merged', open', c);
      OutMore(merged'[at..], was, open', c, x);
      SftpFirstMore(merged'[at..], x);
      assert (merged' + [x])[at..] == merged'[at..] + [x];
      merged' := merged' + [x];
      left := left - {c};
      open' := open' - {c};
    }
  }

  lemma GroupClass(batch: seq<Activity>, merged: seq<Activity>, open: map<Class, Group>, c: Class)
    requires Progress(batch, merged, open, []) && c in open
    ensures c != Alone && Classify(open[c].Emitted()) == c
  {
    EmittedClass(open[c]);
    hide Classify;
  }

  lemma NothingSeen(batch: seq<Activity>)
    ensures Seen(batch[..0], map[])
  {
  }

  lemma UploadsLeft(out: seq<Activity>, was: map<Class, Group>, open: map<Class, Group>)
    requires Out(out, was, open) && forall c <- open :: !c.Sftp?
    ensures forall c <- open.Keys :: c.Upload?
  {
    hide Of;
  }

  lemma NothingOut(batch: seq<Activity>, open: map<Class, Group>)
    requires Seen(batch, open)
    ensures Out([], open, open) && SftpFirst([])
  {
    hide Classify;
    assert Alone !in open;
  }

  lemma LeftoverIsLast(batch: seq<Activity>, merged: seq<Activity>, was: map<Class, Group>, at: nat)
    requires at <= |merged| && Seen(batch, was) && Out(merged[at..], was, map[]) && SftpFirst(merged[at..])
    ensures LeftoverLast(batch, merged, at)
  {
    hide Of, SftpFirst;
    forall c: Class
      ensures |Of(merged[at..], c)| == if c != Alone && Of(batch, c) != [] then 1 else 0
    {
      assert c in was <==> c != Alone && Of(batch, c) != [];
    }
  }

  lemma Start(batch: seq<Activity>)
    ensures Progress(batch, [], map[], batch) && batch[0..] == batch
  {
    hide Classify, MergeClass;
    forall c: Class
      ensures MergeClass(Of(batch, c)) == Of([], c) + Pending(map[], c, Of(batch, c))
    {
      assert [] + MergeClass(Of(batch, c)) == MergeClass(Of(batch, c));
    }
  }

  lemma Done(batch: seq<Activity>, merged: seq<Activity>)
    requires Progress(batch, merged, map[], [])
    ensures forall c: Class {:trigger Of(merged, c)} :: c != Alone ==> Of(merged, c) == MergeClass(Of(batch, c))
    ensures Of(merged, Alone) == Of(batch, Alone)
  {
    forall c: Class | c != Alone
      ensures Of(merged, c) == MergeClass(Of(batch, c))
    {
      assert MergeClass(Of(batch, c)) == Of(merged, c) + [];
    }
  }

  // ----- where every activity ends up

  /** The files of a sequence of activities, in order. */
  function Files(s: seq<Activity>): seq<Value> {
    if s == [] then [] else ExtractFiles(s[0]) + Files(s[1..])
  }

  /** The stretches of one class that are merged: a new one starts where an activity is too far from the first of the current one. */
  function Runs(base: Activity, run: seq<Activity>, s: seq<Activity>): seq<seq<Activity>>
    decreases |s|
  {
    if s == [] then [run]
    else if Near(s[0], base) then Runs(base, run + [s[0]], s[1..])
    else [run] + Runs(s[0], [s[0]], s[1..])
  }

  ghost predicate IsRun(run: seq<Activity>) {
    run != [] && forall i :: 0 < i < |run| ==> Near(run[i], run[0])
  }

  /** One merged activity a run: the first of the run, holding the files of all. */
  ghost predicate Merged(runs: seq<seq<Activity>>, out: seq<Activity>) {
    && |out| == |runs|
    && forall k :: 0 <= k < |runs| ==> IsRun(runs[k]) && out[k] == Finalize(runs[k][0], Files(runs[k]))
  }

  lemma FilesSnoc(run: seq<Activity>, a: Activity)
    ensures Files(run + [a]) == Files(run) + ExtractFiles(a)
  {
    FilesAppend(run, [a]);
    assert [a][1..] == [];
    assert ExtractFiles(a) + [] == ExtractFiles(a);
  }

  lemma {:induction false} FilesAppend(a: seq<Activity>, b: seq<Activity>)
    ensures Files(a + b) == Files(a) + Files(b)
  {
    hide ExtractFiles;
    if a == [] {
      assert a + b == b;
    } else {
      assert (a + b)[1..] == a[1..] + b;
      FilesAppend(a[1..], b);
      Associative(ExtractFiles(a[0]), Files(a[1..]), Files(b));
    }
  }

  /**
   The activities of a class fall into consecutive runs, each within the time window of its
   first; each run becomes one activity, and a run's first is outside the window of the run before.
   */
  lemma {:induction false} RunsOf(base: Activity, run: seq<Activity>, s: seq<Activity>)
    requires IsRun(run) && run != [] && run[0] == base
    ensures var runs := Runs(base, run, s);
      && runs != [] && runs[0] != [] && runs[0][0] == base
      && Merged(runs, MergeInto(Group(base, Files(run)), s))
      && Flatten(runs) == run + s
      && (forall k {:trigger runs[k]} :: 0 < k < |runs| ==> runs[k] != [] && runs[k - 1] != [] && !Near(runs[k][0], runs[k - 1][0]))
    decreases |s|
  {
    hide Near, ExtractFiles, Finalize, Files, IsRun, Merged, Flatten;
    if s == [] {
      OneRun(run);
    } else if Near(s[0], base) {
      FilesSnoc(run, s[0]);
      RunSnoc(run, s[0]);
      assert run + [s[0]] + s[1..] == run + s;
      RunsOf(base, run + [s[0]], s[1..]);
    } else {
      assert Files([s[0]]) == ExtractFiles(s[0]) by { FilesOne(s[0]); }
      RunStart(s[0]);
      RunsOf(s[0], [s[0]], s[1..]);
      var rest := Runs(s[0], [s[0]], s[1..]);
      MoreRuns(run, rest, MergeInto(Begin(s[0]), s[1..]));
      assert [s[0]] + s[1..] == s;
    }
  }

  lemma RunStart(a: Activity)
    ensures IsRun([a])
  {
  }

  lemma RunSnoc(run: seq<Activity>, a: Activity)
    requires IsRun(run) && Near(a, run[0])
    ensures IsRun(run + [a])
  {
    hide Near;
  }

  lemma OneRun(run: seq<Activity>)
    requires IsRun(run)
    ensures Merged([run], [Finalize(run[0], Files(run))]) && Flatten([run]) == run
  {
    assert [run][1..] == [];
    assert run + [] == run;
  }

  lemma MoreRuns(run: seq<Activity>, rest: seq<seq<Activity>>, out: seq<Activity>)
    requires IsRun(run) && Merged(rest, out)
    ensures Merged([run] + rest, [Finalize(run[0], Files(run))] + out)
    ensures Flatten([run] + rest) == run + Flatten(rest)
  {
    hide IsRun, Finalize, Files;
    assert ([run] + rest)[1..] == rest;
  }

  lemma FilesOne(a: Activity)
    ensures Files([a]) == ExtractFiles(a)
  {
    assert [a][1..] == [];
    assert ExtractFiles(a) + [] == ExtractFiles(a);
  }

  /** Any two activities of a sequence can be merged, as far as what they are about goes. */
  ghost predicate AllAlike(s: seq<Activity>) {
    forall a <- s, b <- s :: Mergeable(a) && Mergeable(b) && Alike(a, b)
  }

  /** Runs for a whole class of a batch; all its activities are alike. */
  lemma Placement(batch: seq<Activity>, c: Class)
    requires c != Alone && Of(batch, c) != []
    ensures var s := Of(batch, c);
      var runs := Runs(s[0], [s[0]], s[1..]);
      && Merged(runs, MergeClass(s)) && Flatten(runs) == s && AllAlike(s)
      && (forall k {:trigger runs[k]} :: 0 < k < |runs| ==> runs[k] != [] && runs[k - 1] != [] && !Near(runs[k][0], runs[k - 1][0]))
  {
    hide Near, ExtractFiles, Finalize, Files, Runs, MergeInto, Flatten, Merged;
    var s := Of(batch, c);
    FilesOne(s[0]);
    RunsOf(s[0], [s[0]], s[1..]);
    assert [s[0]] + s[1..] == s;
    OfAll(batch, c);
    hide Of, Classify, Mergeable, Alike, MergeClass;
    forall a, b | a in s && b in s
      ensures Mergeable(a) && Mergeable(b) && Alike(a, b)
    {
      SameClassIff(a, b);
    }
  }

  // ----- conservation

  ghost predicate AllOf(s: seq<Activity>, c: Class) {
    forall a <- s :: Classify(a) == c
  }

  lemma EmittedFiles(g: Group)
    requires Classify(g.base) != Alone && (g.files == [] ==> ExtractFiles(g.base) == [])
    ensures ExtractFiles(g.Emitted()) == g.files
  {
  }

  /** Merging one class keeps its files, and even their order. */
  lemma {:induction false} MergeIntoKeepsFiles(g: Group, s: seq<Activity>, c: Class)
    requires c != Alone && Classify(g.base) == c && AllOf(s, c)
    requires g.files == [] ==> ExtractFiles(g.base) == []
    ensures Files(MergeInto(g, s)) == g.files + Files(s)
    ensures AllOf(MergeInto(g, s), c)
    decreases |s|
  {
    EmittedFiles(g);
    EmittedClass(g);
    hide Near, ExtractFiles, Finalize, Classify;
    var x := g.Emitted();
    if s == [] {
      assert Files([x]) == ExtractFiles(x) by { FilesOne(x); }
      assert g.files + [] == g.files;
    } else if Near(s[0], g.base) {
      var h := g.(files := g.files + ExtractFiles(s[0]));
      MergeIntoKeepsFiles(h, s[1..], c);
      Associative(g.files, ExtractFiles(s[0]), Files(s[1..]));
    } else {
      MergeIntoKeepsFiles(Begin(s[0]), s[1..], c);
      FilesAppend([x], MergeInto(Begin(s[0]), s[1..]));
      FilesOne(x);
    }
  }

  lemma MergeClassKeepsFiles(s: seq<Activity>, c: Class)
    requires c != Alone && AllOf(s, c)
    ensures Files(MergeClass(s)) == Files(s) && AllOf(MergeClass(s), c)
  {
    if s != [] {
      MergeIntoKeepsFiles(Begin(s[0]), s[1..], c);
    }
  }

  lemma {:induction false} OfAll(s: seq<Activity>, c: Class)
    ensures AllOf(Of(s, c), c)
  {
    if s != [] {
      OfAll(s[1..], c);
    }
  }

  /** The activities of `s` outside class `c`. */
  function Without(s: seq<Activity>, c: Class): (r: seq<Activity>)
    ensures |r| <= |s|
  {
    if s == [] then [] else (if Classify(s[0]) == c then [] else [s[0]]) + Without(s[1..], c)
  }

  lemma {:induction false} FilesParts(s: seq<Activity>, c: Class)
    ensures multiset(Files(s)) == multiset(Files(Of(s, c))) + multiset(Files(Without(s, c)))
  {
    if s != [] {
      var x, rest := s[0], s[1..];
      FilesParts(rest, c);
      PartsStep(x, rest, c);
      hide *;
      assert s == [x] + rest;
      FilesAppend([x], rest);
      FilesAppend([x], Of(rest, c));
      FilesAppend([x], Without(rest, c));
    }
  }

  lemma PartsStep(x: Activity, rest: seq<Activity>, c: Class)
    ensures Of([x] + rest, c) == if Classify(x) == c then [x] + Of(rest, c) else Of(rest, c)
    ensures Without([x] + rest, c) == if Classify(x) == c then Without(rest, c) else [x] + Without(rest, c)
  {
    hide Classify;
    assert ([x] + rest)[1..] == rest;
  }

  lemma {:induction false} OfWithout(s: seq<Activity>, c: Class, d: Class)
    ensures Of(Without(s, c), d) == if c == d then [] else Of(s, d)
  {
    hide Classify;
    if s != [] {
      OfWithout(s[1..], c, d);
      var rest := Without(s[1..], c);
      if Classify(s[0]) == c {
        assert [] + rest == rest;
        assert c != d ==> [] + Of(s[1..], d) == Of(s[1..], d);
      } else {
        assert ([s[0]] + rest)[1..] == rest;
      }
    }
  }

  /** Sequences that agree class by class, as far as files go, hold the same files. */
  lemma {:induction false} SameFilesByClass(a: seq<Activity>, b: seq<Activity>)
    requires forall c: Class {:trigger Of(a, c)} :: Files(Of(a, c)) == Files(Of(b, c))
    ensures multiset(Files(a)) == multiset(Files(b))
    decreases |a| + |b|
  {
    hide Classify, ExtractFiles, Of, Files;
    if a == [] && b == [] {
    } else {
      var c := Classify(if a != [] then a[0] else b[0]);
      FilesParts(a, c);
      FilesParts(b, c);
      assert Files(Of(a, c)) == Files(Of(b, c));
      var a', b' := Without(a, c), Without(b, c);
      forall d: Class
        ensures Files(Of(a', d)) == Files(Of(b', d))
      {
        OfWithout(a, c, d);
        OfWithout(b, c, d);
        assert Files(Of(a, d)) == Files(Of(b, d));
      }
      Shorter(a, b, c);
      SameFilesByClass(a', b');
    }
  }

  lemma {:induction false} Shorter(a: seq<Activity>, b: seq<Activity>, c: Class)
    requires a != [] || b != []
    requires c == Classify(if a != [] then a[0] else b[0])
    ensures |Without(a, c)| + |Without(b, c)| < |a| + |b|
  {
  }

  /** `out` is what merging makes of `batch`, up to how the classes interleave. */
  ghost predicate MergeOf(batch: seq<Activity>, out: seq<Activity>) {
    && (forall c: Class {:trigger Of(out, c)} :: c != Alone ==> Of(out, c) == MergeClass(Of(batch, c)))
    && Of(out, Alone) == Of(batch, Alone)
  }

  /** No file value is lost, added or repeated by merging. */
  lemma MergeConserves(batch: seq<Activity>, out: seq<Activity>)
    requires MergeOf(batch, out)
    ensures multiset(Files(out)) == multiset(Files(batch))
  {
    hide Of, Files, Classify, MergeClass;
    forall c: Class
      ensures Files(Of(out, c)) == Files(Of(batch, c))
    {
      if c != Alone {
        OfAll(batch, c);
        MergeClassKeepsFiles(Of(batch, c), c);
        assert Of(out, c) == MergeClass(Of(batch, c));
      }
    }
    SameFilesByClass(out, batch);
  }

  // ----- merging again changes nothing

  /** Finalizing an activity with its own files changes nothing. */
  lemma FinalizeOwn(a: Activity)
    ensures Begin(a).Emitted() == a
  {
    if ExtractFiles(a) != [] {
      var fields := a.metadata.value.fields;
      assert fields["files" := Array(ExtractFiles(a))] == fields;
    }
  }

  lemma {:induction false} MergeIntoApart(base: Activity, s: seq<Activity>)
    requires s != [] ==> !Near(s[0], base)
    requires forall k :: 0 < k < |s| ==> !Near(s[k], s[k - 1])
    ensures MergeInto(Begin(base), s) == [base] + s
    decreases |s|
  {
    hide Near;
    FinalizeOwn(base);
    hide ExtractFiles, Finalize;
    if s != [] {
      var t := s[1..];
      assert forall k :: 0 <= k < |t| ==> t[k] == s[k + 1];
      MergeIntoApart(s[0], t);
      assert [s[0]] + t == s;
    }
  }

  lemma MergedApart(s: seq<Activity>)
    requires s != []
    ensures var out := MergeClass(s);
      out != [] && forall k :: 0 < k < |out| ==> !Near(out[k], out[k - 1])
  {
    var runs := Runs(s[0], [s[0]], s[1..]);
    var out := MergeClass(s);
    FilesOne(s[0]);
    RunsOf(s[0], [s[0]], s[1..]);
    assert Merged(runs, out);
    forall k | 0 < k < |out|
      ensures !Near(out[k], out[k - 1])
    {
      assert !Near(runs[k][0], runs[k - 1][0]);
      assert out[k] == Finalize(runs[k][0], Files(runs[k]));
      assert out[k - 1] == Finalize(runs[k - 1][0], Files(runs[k - 1]));
      hide Near, Files, Runs, MergeClass;
      SameTime(runs[k][0], Files(runs[k]), runs[k - 1][0], Files(runs[k - 1]));
    }
  }

  lemma SameTime(a: Activity, f: seq<Value>, b: Activity, g: seq<Value>)
    ensures Near(Finalize(a, f), Finalize(b, g)) <==> Near(a, b)
  {
  }

  lemma MergeClassIdempotent(s: seq<Activity>)
    ensures MergeClass(MergeClass(s)) == MergeClass(s)
  {
    if s != [] {
      var out := MergeClass(s);
      MergedApart(s);
      hide Near, MergeInto, ExtractFiles;
      var t := out[1..];
      assert forall k :: 0 <= k < |t| ==> t[k] == out[k + 1];
      MergeIntoApart(out[0], t);
      assert [out[0]] + t == out;
    }
  }

  /** Merging what was merged already leaves every class, and what passes through, exactly as it is. */
  lemma MergeIdempotent(batch: seq<Activity>, once: seq<Activity>, twice: seq<Activity>, c: Class)
    requires MergeOf(batch, once) && MergeOf(once, twice)
    ensures Of(twice, c) == Of(once, c)
  {
    hide Of, MergeClass;
    if c != Alone {
      assert Of(once, c) == MergeClass(Of(batch, c));
      assert Of(twice, c) == MergeClass(Of(once, c));
      MergeClassIdempotent(Of(batch, c));
    }
  }

  // ----- the send loop

  /** One round of sending: leftovers first, merge, send at most `count`, keep the rest. */
  method SendRound(leftover: seq<Activity>, drained: seq<Activity>, count: nat) returns (sent: seq<Activity>, rest: seq<Activity>)
    ensures MergeOf(leftover + drained, sent + rest)
    ensures |sent| <= count && (rest != [] ==> |sent| == count)
    ensures multiset(Files(sent)) + multiset(Files(rest)) == multiset(Files(leftover)) + multiset(Files(drained))
  {
    hide Of, Files, MergeClass;
    ghost var at;
    var merged;
    merged, at := MergeActivities(leftover + drained);
    if |merged| > count {
      sent, rest := merged[..count], merged[count..];
    } else {
      sent, rest := merged, [];
    }
    assert sent + rest == merged;
    MergeConserves(leftover + drained, merged);
    FilesAppend(sent, rest);
    FilesAppend(leftover, drained);
  }
}
