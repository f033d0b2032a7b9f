/** Token revocation by subject or credential, with pruning that may only revoke more. */
module TokenRevocation {
  import opened Bytes

  type Uuid = nat

  const I64_MIN: i64 := -I64_LIMIT
  const I64_MAX: i64 := I64_LIMIT - 1

  function Max(a: int, b: int): int { if a < b then b else a }

  datatype Table = Table(subjects: map<Uuid, i64>, credentials: map<Uuid, i64>, revokedAll: i64)

  const EMPTY := Table(map[], map[], I64_MIN)

  function Get(revoked: map<Uuid, i64>, id: Option<Uuid>): i64 {
    if id.Some? && id.value in revoked then revoked[id.value] else I64_MIN
  }

  /** The time at or before which tokens of this subject and credential are revoked. */
  function RevokedAt(t: Table, subject: Option<Uuid>, credential: Option<Uuid>): int {
    Max(Max(Get(t.subjects, subject), Get(t.credentials, credential)), t.revokedAll)
  }

  function RevokedMap(revoked: map<Uuid, i64>, ids: set<Uuid>, asOf: i64): map<Uuid, i64> {
    map id | id in revoked.Keys + ids ::
      if id !in ids then revoked[id] else if id in revoked && revoked[id] > asOf then revoked[id] else asOf
  }

  function Revoke(t: Table, subjects: set<Uuid>, credentials: set<Uuid>, asOf: i64): Table {
    t.(subjects := RevokedMap(t.subjects, subjects, asOf), credentials := RevokedMap(t.credentials, credentials, asOf))
  }

  function PrunedMap(revoked: map<Uuid, i64>, cutoff: i64): map<Uuid, i64> {
    map id | id in revoked && revoked[id] > cutoff :: revoked[id]
  }

  /** `r` is `start` raised to the largest revocation of `revoked` at or below `cutoff`. */
  ghost predicate RaisedTo(revoked: map<Uuid, i64>, cutoff: i64, start: i64, r: i64) {
    && start <= r
    && (forall id <- revoked :: revoked[id] <= cutoff ==> revoked[id] <= r)
    && (r == start || exists id <- revoked :: revoked[id] <= cutoff && revoked[id] == r)
  }

  ghost predicate Pruned(t: Table, cutoff: i64, u: Table) {
    && u.subjects == PrunedMap(t.subjects, cutoff)
    && u.credentials == PrunedMap(t.credentials, cutoff)
    && exists mid :: RaisedTo(t.subjects, cutoff, t.revokedAll, mid) && RaisedTo(t.credentials, cutoff, mid, u.revokedAll)
  }

  class Revocations {
    var subjects: map<Uuid, i64>
    var credentials: map<Uuid, i64>
    var revokedAll: i64

    ghost function State(): Table
      reads this
    {
      Table(subjects, credentials, revokedAll)
    }

    constructor ()
      ensures State() == EMPTY
    {
      subjects, credentials, revokedAll := map[], map[], I64_MIN;
    }

    method RevokeTokens(ids: set<Uuid>, keys: set<Uuid>, asOf: i64)
      modifies this
      ensures State() == Revoke(old(State()), ids, keys, asOf)
      // the named ids are revoked as of the later of the two times, the others as before
      ensures revokedAll == old(revokedAll)
      ensures forall id :: Get(subjects, Some(id)) == if id in ids then Max(Get(old(subjects), Some(id)), asOf) else Get(old(subjects), Some(id))
      ensures forall id :: Get(credentials, Some(id)) == if id in keys then Max(Get(old(credentials), Some(id)), asOf) else Get(old(credentials), Some(id))
    {
      if ids == {} && keys == {} {
        Unrevoked(subjects, asOf);
        Unrevoked(credentials, asOf);
        return;
      }
      subjects := Raise(subjects, ids, asOf);
      credentials := Raise(credentials, keys, asOf);
    }

    method Prune(cutoff: i64)
      modifies this
      ensures Pruned(old(State()), cutoff, State())
      // exactly the entries at or before the cutoff are forgotten
      ensures forall id :: id in subjects <==> id in old(subjects) && old(subjects)[id] > cutoff
      ensures forall id :: id in credentials <==> id in old(credentials) && old(credentials)[id] > cutoff
      ensures forall id <- subjects :: subjects[id] == old(subjects)[id]
      ensures forall id <- credentials :: credentials[id] == old(credentials)[id]
    {
      var all := revokedAll;
      subjects, all := Retain(subjects, cutoff, all);
      credentials, all := Retain(credentials, cutoff, all);
      revokedAll := all;
    }
  }

  lemma Unrevoked(revoked: map<Uuid, i64>, asOf: i64)
    ensures RevokedMap(revoked, {}, asOf) == revoked
  {
  }

  /** Each id's entry is set, or raised, to at least `asOf`. */
  method Raise(revoked: map<Uuid, i64>, ids: set<Uuid>, asOf: i64) returns (r: map<Uuid, i64>)
    ensures r == RevokedMap(revoked, ids, asOf)
  {
    hide RevokedMap;
    r := revoked;
    var left := ids;
    Unrevoked(revoked, asOf);
    assert ids - left == {};
    while left != {}
      invariant left <= ids && r == RevokedMap(revoked, ids - left, asOf)
      decreases |left|
    {
      var id :| id in left;
      RaiseOne(revoked, ids - left, id, asOf);
      assert ids - (left - {id}) == (ids - left) + {id};
      r := r[id := if id in r && r[id] > asOf then r[id] else asOf];
      left := left - {id};
    }
    assert ids - {} == ids;
  }

  lemma RaiseOne(revoked: map<Uuid, i64>, ids: set<Uuid>, id: Uuid, asOf: i64)
    requires id !in ids
    ensures var r := RevokedMap(revoked, ids, asOf);
      RevokedMap(revoked, ids + {id}, asOf) == r[id := if id in r && r[id] > asOf then r[id] else asOf]
  {
  }

  /** `retain` with its side effect: what is dropped raises `all`. */
  method Retain(revoked: map<Uuid, i64>, cutoff: i64, start: i64) returns (kept: map<Uuid, i64>, all: i64)
    ensures kept == PrunedMap(revoked, cutoff)
    ensures RaisedTo(revoked, cutoff, start, all)
  {
    kept, all := map[], start;
    var left := revoked.Keys;
    while left != {}
      invariant left <= revoked.Keys
      invariant kept == map id | id in revoked && id !in left && revoked[id] > cutoff :: revoked[id]
      invariant start <= all
      invariant forall id <- revoked :: id !in left && revoked[id] <= cutoff ==> revoked[id] <= all
      invariant all == start || exists id <- revoked :: revoked[id] <= cutoff && revoked[id] == all
      decreases |left|
    {
      var id :| id in left;
      left := left - {id};
      if revoked[id] > cutoff {
        kept := kept[id := revoked[id]];
      } else if all < revoked[id] {
        all := revoked[id];
      }
    }
  }

  // ----- whole histories

  datatype Call =
    | RevokeCall(subjects: set<Uuid>, credentials: set<Uuid>, asOf: i64)
    | PruneCall(cutoff: i64)

  ghost predicate Step(t: Table, call: Call, u: Table) {
    match call
    case RevokeCall(subjects, credentials, asOf) => u == Revoke(t, subjects, credentials, asOf)
    case PruneCall(cutoff) => Pruned(t, cutoff, u)
  }

  ghost predicate History(calls: seq<Call>, tables: seq<Table>) {
    && |tables| == |calls| + 1 && tables[0] == EMPTY
    && forall i {:trigger calls[i]} :: 0 <= i < |calls| ==> Step(tables[i], calls[i], tables[i + 1])
  }

  predicate Names(call: Call, subject: Option<Uuid>, credential: Option<Uuid>) {
    call.RevokeCall? && ((subject.Some? && subject.value in call.subjects) || (credential.Some? && credential.value in call.credentials))
  }

  /** The latest time either id was revoked as of, among the first `n` calls. */
  function LatestRevocation(calls: seq<Call>, n: nat, subject: Option<Uuid>, credential: Option<Uuid>): int
    requires n <= |calls|
  {
    if n == 0 then I64_MIN
    else
      var before := LatestRevocation(calls, n - 1, subject, credential);
      if Names(calls[n - 1], subject, credential) then Max(before, calls[n - 1].asOf) else before
  }

  function LatestCutoff(calls: seq<Call>, n: nat): int
    requires n <= |calls|
  {
    if n == 0 then I64_MIN
    else
      var before := LatestCutoff(calls, n - 1);
      if calls[n - 1].PruneCall? then Max(before, calls[n - 1].cutoff) else before
  }

  /** One call never lowers a revocation, and raises it only to its own time. */
  lemma StepBounds(t: Table, call: Call, u: Table, subject: Option<Uuid>, credential: Option<Uuid>)
    requires Step(t, call, u)
    ensures RevokedAt(t, subject, credential) <= RevokedAt(u, subject, credential)
    ensures Names(call, subject, credential) ==> call.asOf <= RevokedAt(u, subject, credential)
  {
    match call {
      case PruneCall(cutoff) => PruneBounds(t, cutoff, u, subject, credential);
      case RevokeCall(subjects, credentials, asOf) =>
        RaiseBounds(t.subjects, subjects, asOf, subject);
        RaiseBounds(t.credentials, credentials, asOf, credential);
        hide RevokedMap, Get;
    }
  }

  lemma RaiseBounds(revoked: map<Uuid, i64>, ids: set<Uuid>, asOf: i64, id: Option<Uuid>)
    ensures Get(revoked, id) <= Get(RevokedMap(revoked, ids, asOf), id)
    ensures id.Some? && id.value in ids ==> asOf <= Get(RevokedMap(revoked, ids, asOf), id)
  {
  }

  lemma PruneBounds(t: Table, cutoff: i64, u: Table, subject: Option<Uuid>, credential: Option<Uuid>)
    requires Pruned(t, cutoff, u)
    ensures RevokedAt(t, subject, credential) <= RevokedAt(u, subject, credential)
  {
    var mid :| RaisedTo(t.subjects, cutoff, t.revokedAll, mid) && RaisedTo(t.credentials, cutoff, mid, u.revokedAll);
    PruneKeeps(t.subjects, cutoff, t.revokedAll, mid, subject);
    PruneKeeps(t.credentials, cutoff, mid, u.revokedAll, credential);
    hide RaisedTo, PrunedMap, Get;
  }

  lemma PruneKeeps(revoked: map<Uuid, i64>, cutoff: i64, start: i64, r: i64, id: Option<Uuid>)
    requires RaisedTo(revoked, cutoff, start, r)
    ensures start <= r && Get(revoked, id) <= Max(Get(PrunedMap(revoked, cutoff), id), r)
  {
  }

  ghost predicate Within(t: Table, subject: Option<Uuid>, credential: Option<Uuid>, revoked: int, cutoff: int) {
    && Get(t.subjects, subject) <= revoked
    && Get(t.credentials, credential) <= revoked
    && t.revokedAll <= cutoff
  }

  lemma StepWithin(t: Table, call: Call, u: Table, subject: Option<Uuid>, credential: Option<Uuid>, revoked: int, cutoff: int)
    requires Step(t, call, u) && Within(t, subject, credential, revoked, cutoff)
    requires revoked >= I64_MIN && cutoff >= I64_MIN
    ensures Within(u, subject, credential,
      if Names(call, subject, credential) then Max(revoked, call.asOf) else revoked,
      if call.PruneCall? then Max(cutoff, call.cutoff) else cutoff)
  {
  }

  lemma {:induction false} HistoryBounds(calls: seq<Call>, tables: seq<Table>, n: nat, subject: Option<Uuid>, credential: Option<Uuid>)
    requires History(calls, tables) && n <= |calls|
    ensures var revoked, cutoff := LatestRevocation(calls, n, subject, credential), LatestCutoff(calls, n);
      && I64_MIN <= revoked <= RevokedAt(tables[n], subject, credential)
      && I64_MIN <= cutoff
      && Within(tables[n], subject, credential, revoked, cutoff)
  {
    hide Step, RevokedAt;
    if n == 0 {
      EmptyRevokesNothing(subject, credential);
    } else {
      HistoryBounds(calls, tables, n - 1, subject, credential);
      assert Step(tables[n - 1], calls[n - 1], tables[n]);
      StepBounds(tables[n - 1], calls[n - 1], tables[n], subject, credential);
      StepWithin(tables[n - 1], calls[n - 1], tables[n], subject, credential,
                 LatestRevocation(calls, n - 1, subject, credential), LatestCutoff(calls, n - 1));
    }
  }

  lemma EmptyRevokesNothing(subject: Option<Uuid>, credential: Option<Uuid>)
    ensures RevokedAt(EMPTY, subject, credential) == I64_MIN
  {
  }

  lemma {:induction false} NeverLowered(calls: seq<Call>, tables: seq<Table>, i: nat, j: nat, subject: Option<Uuid>, credential: Option<Uuid>)
    requires History(calls, tables) && i <= j <= |calls|
    ensures RevokedAt(tables[i], subject, credential) <= RevokedAt(tables[j], subject, credential)
    decreases j
  {
    hide Step, RevokedAt;
    if i < j {
      NeverLowered(calls, tables, i, j - 1, subject, credential);
      assert Step(tables[j - 1], calls[j - 1], tables[j]);
      StepBounds(tables[j - 1], calls[j - 1], tables[j], subject, credential);
    }
  }

  /**
   Over every history of revocations and prunings: what an id pair is revoked as
   of lies between the latest revocation of either id and the larger of that and the latest cutoff.
   */
  lemma {:induction false} RevocationIsBracketed(calls: seq<Call>, tables: seq<Table>, n: nat, subject: Option<Uuid>, credential: Option<Uuid>)
    requires History(calls, tables) && n <= |calls|
    ensures var revoked, cutoff := LatestRevocation(calls, n, subject, credential), LatestCutoff(calls, n);
      revoked <= RevokedAt(tables[n], subject, credential) <= Max(revoked, cutoff)
  {
    HistoryBounds(calls, tables, n, subject, credential);
  }

  /** The time was given in one of the first `n` calls to revoke. */
  ghost predicate Given(calls: seq<Call>, n: nat, time: int)
    requires n <= |calls|
  {
    exists i :: 0 <= i < n && calls[i].RevokeCall? && calls[i].asOf == time
  }

  /** Every time a table holds was given. */
  ghost predicate AllGiven(t: Table, calls: seq<Call>, n: nat)
    requires n <= |calls|
  {
    && (forall id <- t.subjects :: Given(calls, n, t.subjects[id]))
    && (forall id <- t.credentials :: Given(calls, n, t.credentials[id]))
    && (t.revokedAll == I64_MIN || Given(calls, n, t.revokedAll))
  }

  lemma GivenStep(t: Table, call: Call, u: Table, calls: seq<Call>, n: nat)
    requires n < |calls| && calls[n] == call && Step(t, call, u) && AllGiven(t, calls, n)
    ensures AllGiven(u, calls, n + 1)
  {
    if call.RevokeCall? {
      assert Given(calls, n + 1, call.asOf);
    }
    assert forall time :: Given(calls, n, time) ==> Given(calls, n + 1, time);
  }

  lemma NoneGiven(calls: seq<Call>)
    ensures AllGiven(EMPTY, calls, 0)
  {
  }

  lemma {:induction false} HistoryGiven(calls: seq<Call>, tables: seq<Table>, n: nat)
    requires History(calls, tables) && n <= |calls|
    ensures AllGiven(tables[n], calls, n)
  {
    hide Step, AllGiven;
    if n == 0 {
      NoneGiven(calls);
    } else {
      HistoryGiven(calls, tables, n - 1);
      assert Step(tables[n - 1], calls[n - 1], tables[n]);
      GivenStep(tables[n - 1], calls[n - 1], tables[n], calls, n - 1);
    }
  }

  /** Pruning makes nothing up: what a token is revoked as of, over every history, is a time that was given to revoke. */
  lemma RevocationsAreGiven(calls: seq<Call>, tables: seq<Table>, n: nat, subject: Option<Uuid>, credential: Option<Uuid>)
    requires History(calls, tables) && n <= |calls|
    ensures var time := RevokedAt(tables[n], subject, credential);
      time == I64_MIN || Given(calls, n, time)
  {
    hide History, Given;
    HistoryGiven(calls, tables, n);
  }

  // ----- what it means for a token

  /** `issued.saturating_mul(1000)`. */
  function Millis(issued: i64): (r: i64) {
    if issued * 1000 > I64_MAX then I64_MAX else if issued * 1000 < I64_MIN then I64_MIN else issued * 1000
  }

  /** The revocation part of token validation. */
  predicate Denied(t: Table, subject: Option<Uuid>, credential: Option<Uuid>, issued: i64) {
    Millis(issued) <= RevokedAt(t, subject, credential)
  }

  /** A token revoked once stays revoked, however much is pruned since. */
  lemma RevokedStaysDenied(calls: seq<Call>, tables: seq<Table>, i: nat, j: nat, subject: Option<Uuid>, credential: Option<Uuid>, issued: i64)
    requires History(calls, tables) && i < j <= |calls|
    requires Names(calls[i], subject, credential) && issued * 1000 <= calls[i].asOf
    ensures Denied(tables[j], subject, credential, issued)
    ensures forall now, boot :: !Validate(tables[j], subject, credential, issued, now, boot).Passed?
  {
    hide RevokedAt;
    assert Step(tables[i], calls[i], tables[i + 1]);
    StepBounds(tables[i], calls[i], tables[i + 1], subject, credential);
    NeverLowered(calls, tables, i + 1, j, subject, credential);
  }

  /** Unix seconds of a date that the clock can show; calendar dates end long before the range of 64 bits does. */
  type Seconds = x: int | -10_000_000_000_000 < x < 10_000_000_000_000

  datatype Verdict = InvalidIssuedAt | Revoked | Passed

  /** A token's time of issue is held against the clock and the daemon's start, and only then against revocations. */
  function Validate(t: Table, subject: Option<Uuid>, credential: Option<Uuid>, issued: i64, now: Seconds, boot: Seconds): Verdict {
    if issued - 5 > now || issued < boot then InvalidIssuedAt
    else if Denied(t, subject, credential, issued) then Revoked
    else Passed
  }

  /** A token issued later than every revocation of its ids and every cutoff is never denied by revocation. */
  lemma {:induction false} LaterTokenPasses(
    calls: seq<Call>, tables: seq<Table>, n: nat, subject: Option<Uuid>, credential: Option<Uuid>, issued: i64, now: Seconds, boot: Seconds)
    requires History(calls, tables) && n <= |calls|
    requires issued * 1000 > LatestRevocation(calls, n, subject, credential) && issued * 1000 > LatestCutoff(calls, n)
    ensures Validate(tables[n], subject, credential, issued, now, boot)
         == if boot <= issued <= now + 5 then Passed else InvalidIssuedAt
  {
    hide RevokedAt;
    HistoryBounds(calls, tables, n, subject, credential);
    RevocationIsBracketed(calls, tables, n, subject, credential);
  }
}
