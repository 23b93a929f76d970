/** The instance-listing lambda of the PC viewer: resolve whose instances the
    caller sees (an admin sees the owner's, a member only the owner's instances
    assigned to them), ask the compute provider about them, derive each one's
    state, write it back to the user-data table and return the instances the
    provider reported. The tables and the provider's answers are inputs. */
module Viewer {
  import opened Text
  import opened Wrappers

  /** A record of the user table: the role as stored (missing reads as "") and
      the owner id ("" when missing or empty). */
  datatype UserInfo = UserInfo(id: string, role: string, ownerId: string)

  /** A record of the assignment table. */
  datatype Assignment = Assignment(ownerId: string, memberId: string, instanceId: string)

  /** A record of the user-data table, keyed by (userId, instanceId). */
  datatype Row = Row(userId: string, instanceId: string, status: string)

  /** One entry of an instance's status checks: the `Status` of its system and
      instance checks, None where the key is absent. */
  datatype StatusCheck = StatusCheck(system: Option<string>, instance: Option<string>)

  /** What the provider reports about one instance. */
  datatype Described = Described(instanceId: string, state: string, checks: seq<StatusCheck>)

  /** An entry of the response: the stored row with the derived state. */
  datatype Entry = Entry(row: Row, state: string)

  /** Whose instances the caller sees: nobody's (an empty 200), or the rows of
      `instances` with statuses to be written under `writeId`. */
  datatype Resolution = NoInstances | Instances(writeId: string, instances: seq<Row>)

  /** The first user record with the id, as the scan's first item. */
  function FirstUser(users: seq<UserInfo>, userId: string): (r: Option<UserInfo>)
    ensures r.Some? ==> r.value in users && r.value.id == userId
    ensures r.None? <==> forall u :: u in users ==> u.id != userId
  {
    if users == [] then None
    else if users[0].id == userId then Some(users[0])
    else FirstUser(users[1..], userId)
  }

  /** The rows of a user, in table order (the query on the user index). */
  function RowsOf(rows: seq<Row>, userId: string): (r: seq<Row>)
    ensures forall x :: x in r <==> x in rows && x.userId == userId
  {
    if rows == [] then []
    else (if rows[0].userId == userId then [rows[0]] else []) + RowsOf(rows[1..], userId)
  }

  /** The instance ids assigned to a member by an owner. */
  function AssignedIds(assignments: seq<Assignment>, ownerId: string, memberId: string): (r: seq<string>)
    ensures forall i :: i in r <==>
              exists a :: a in assignments && a.ownerId == ownerId && a.memberId == memberId && a.instanceId == i
    ensures r == [] <==> forall a :: a in assignments ==> a.ownerId != ownerId || a.memberId != memberId
  {
    if assignments == [] then []
    else
      var a := assignments[0];
      var rest := AssignedIds(assignments[1..], ownerId, memberId);
      assert forall x :: x in assignments <==> x == a || x in assignments[1..];
      if a.ownerId == ownerId && a.memberId == memberId then [a.instanceId] + rest else rest
  }

  /** The rows whose instance id is in `ids`, in order. */
  function WithIds(rows: seq<Row>, ids: seq<string>): (r: seq<Row>)
    ensures forall x :: x in r <==> x in rows && x.instanceId in ids
  {
    if rows == [] then []
    else (if rows[0].instanceId in ids then [rows[0]] else []) + WithIds(rows[1..], ids)
  }

  /** What a member sees: nothing without an owner or without an assignment,
      otherwise the owner's rows assigned to them, written under their own id. */
  function MemberResolution(assignments: seq<Assignment>, rows: seq<Row>, userId: string, ownerId: string): Resolution {
    if ownerId == "" then NoInstances
    else
      var granted := AssignedIds(assignments, ownerId, userId);
      if granted == [] then NoInstances
      else Instances(userId, WithIds(RowsOf(rows, ownerId), granted))
  }

  /** Role and owner resolution. */
  function Resolve(users: seq<UserInfo>, assignments: seq<Assignment>, rows: seq<Row>, userId: string): Resolution {
    match FirstUser(users, userId)
    case None => Instances(userId, RowsOf(rows, userId))
    case Some(u) =>
      var role := Lower(u.role);
      if role == "admin" then
        (var id := if u.ownerId != "" then u.ownerId else userId;
         Instances(id, RowsOf(rows, id)))
      else if role == "member" then MemberResolution(assignments, rows, userId, u.ownerId)
      else Instances(userId, RowsOf(rows, userId))
  }

  /** Some system or instance check of the instance reports `ok`. */
  predicate Initialized(checks: seq<StatusCheck>) {
    exists i :: 0 <= i < |checks| && (checks[i].system == Some("ok") || checks[i].instance == Some("ok"))
  }

  /** The reported state: `running` without an `ok` check reads `initializing`. */
  function DerivedState(d: Described): (s: string)
    ensures d.state != "running" ==> s == d.state
    ensures d.state == "running" ==> (s == "running" <==> Initialized(d.checks))
    ensures d.state == "running" && !Initialized(d.checks) ==> s == "initializing"
  {
    if d.state == "running" && !Initialized(d.checks) then "initializing" else d.state
  }

  /** `update_item` on the user-data table: set the status of the row with the
      key, creating the row when there is none. */
  function Upsert(rows: seq<Row>, userId: string, instanceId: string, status: string): (r: seq<Row>)
    ensures Row(userId, instanceId, status) in r
    ensures forall x :: x in r && (x.userId != userId || x.instanceId != instanceId) ==> x in rows
    ensures forall x :: x in rows && (x.userId != userId || x.instanceId != instanceId) ==> x in r
  {
    if rows == [] then [Row(userId, instanceId, status)]
    else if rows[0].userId == userId && rows[0].instanceId == instanceId then
      [rows[0].(status := status)] + rows[1..]
    else [rows[0]] + Upsert(rows[1..], userId, instanceId, status)
  }

  /** The status writes of the describe loop, in the provider's order. */
  function WriteStatuses(rows: seq<Row>, userId: string, ds: seq<Described>): seq<Row>
    decreases |ds|
  {
    if ds == [] then rows
    else
      var last := ds[|ds| - 1];
      Upsert(WriteStatuses(rows, userId, ds[..|ds| - 1]), userId, last.instanceId, DerivedState(last))
  }

  /** Where the describe loop stops: the first reported instance whose status
      call or status write raises, or `|ds|` when none does. */
  function FirstFault(ds: seq<Described>, fails: set<string>): (n: nat)
    ensures n <= |ds|
    ensures forall j :: 0 <= j < n ==> ds[j].instanceId !in fails
    ensures n < |ds| ==> ds[n].instanceId in fails
  {
    if ds == [] then 0
    else if ds[0].instanceId in fails then 0
    else 1 + FirstFault(ds[1..], fails)
  }

  /** The ids the provider reported. */
  function DescribedIds(ds: seq<Described>): (r: seq<string>)
    ensures |r| == |ds| && forall i :: 0 <= i < |ds| ==> r[i] == ds[i].instanceId
  {
    seq(|ds|, i requires 0 <= i < |ds| => ds[i].instanceId)
  }

  /** The derived state the map holds for an id: the last report wins. */
  function StateOf(ds: seq<Described>, id: string): string
    decreases |ds|
  {
    if ds == [] then ""
    else if ds[|ds| - 1].instanceId == id then DerivedState(ds[|ds| - 1])
    else StateOf(ds[..|ds| - 1], id)
  }

  /** The response: the resolved rows the provider reported, with their state. */
  function Enrich(instances: seq<Row>, ds: seq<Described>): (r: seq<Entry>)
    ensures forall e :: e in r ==> e.row in instances && e.row.instanceId in DescribedIds(ds)
    ensures forall x :: x in instances && x.instanceId in DescribedIds(ds) ==> Entry(x, StateOf(ds, x.instanceId)) in r
  {
    if instances == [] then []
    else
      var x := instances[0];
      (if x.instanceId in DescribedIds(ds) then [Entry(x, StateOf(ds, x.instanceId))] else [])
      + Enrich(instances[1..], ds)
  }

  /** The lambda: 400 without a user id, an empty 200 when nobody's instances
      are visible or there are none, 500 when `describe_instances` fails
      (`describe` is None) or when a later call for a reported instance raises
      (its id is in `fails`; the writes made before it stay). The new
      user-data table is returned alongside. */
  function ListInstances(rows: seq<Row>, users: seq<UserInfo>, assignments: seq<Assignment>, userId: string,
                         describe: Option<seq<Described>>, fails: set<string>): (Reply<seq<Entry>>, seq<Row>)
  {
    if userId == "" then (Fail(400), rows)
    else match Resolve(users, assignments, rows, userId)
      case NoInstances => (Ok([]), rows)
      case Instances(writeId, instances) =>
        if instances == [] then (Ok([]), rows)
        else if describe.None? then (Fail(500), rows)
        else
          var ds := describe.value;
          var n := FirstFault(ds, fails);
          if n < |ds| then (Fail(500), WriteStatuses(rows, writeId, ds[..n]))
          else (Ok(Enrich(instances, ds)), WriteStatuses(rows, writeId, ds))
  }

  // ---------------------------------------------------------------------------
  // Properties

  /** An admin with an owner id sees the owner's rows and writes under the
      owner's id; one without sees their own. The role is compared lower-cased. */
  lemma AdminUsesOwner(users: seq<UserInfo>, assignments: seq<Assignment>, rows: seq<Row>, userId: string, u: UserInfo)
    requires FirstUser(users, userId) == Some(u) && Lower(u.role) == "admin"
    ensures var id := if u.ownerId != "" then u.ownerId else userId;
            Resolve(users, assignments, rows, userId) == Instances(id, RowsOf(rows, id))
  {
  }

  /** A member sees only rows of the owner that an assignment gives them, and
      their statuses are written under their own id. */
  lemma MemberSeesAssigned(users: seq<UserInfo>, assignments: seq<Assignment>, rows: seq<Row>, userId: string,
                           u: UserInfo, x: Row)
    requires FirstUser(users, userId) == Some(u) && Lower(u.role) == "member"
    ensures u.ownerId == "" ==> Resolve(users, assignments, rows, userId) == NoInstances
    ensures var r := Resolve(users, assignments, rows, userId);
            r.Instances? ==>
              && r.writeId == userId
              && (x in r.instances <==>
                    x in rows && x.userId == u.ownerId
                    && exists a :: a in assignments && a.ownerId == u.ownerId && a.memberId == userId
                                   && a.instanceId == x.instanceId)
    ensures (forall a :: a in assignments ==> a.ownerId != u.ownerId || a.memberId != userId) ==>
              Resolve(users, assignments, rows, userId) == NoInstances
  {
  }

  /** A caller without a user record, or with any role other than admin and
      member, sees exactly their own rows. */
  lemma OtherRolesSeeOwnRows(users: seq<UserInfo>, assignments: seq<Assignment>, rows: seq<Row>, userId: string)
    requires FirstUser(users, userId).None?
          || Lower(FirstUser(users, userId).value.role) !in {"admin", "member"}
    ensures Resolve(users, assignments, rows, userId) == Instances(userId, RowsOf(rows, userId))
  {
  }

  /** After the writes, every reported id has a row under the user id holding
      the derived state of its last report. */
  lemma {:induction false} WriteStatusesWrites(rows: seq<Row>, userId: string, ds: seq<Described>, id: string)
    requires id in DescribedIds(ds)
    ensures Row(userId, id, StateOf(ds, id)) in WriteStatuses(rows, userId, ds)
    decreases |ds|
  {
    var last := ds[|ds| - 1];
    var prefix := ds[..|ds| - 1];
    if last.instanceId != id {
      var k :| 0 <= k < |ds| && ds[k].instanceId == id;
      assert k < |ds| - 1 && prefix[k] == ds[k];
      assert id in DescribedIds(prefix);
      WriteStatusesWrites(rows, userId, prefix, id);
    }
  }

  /** The writes touch only rows keyed by the user id and a reported instance:
      every other row is kept, and no other row appears. */
  lemma {:induction false} WriteStatusesFrame(rows: seq<Row>, userId: string, ds: seq<Described>, x: Row)
    requires x.userId != userId || x.instanceId !in DescribedIds(ds)
    ensures x in WriteStatuses(rows, userId, ds) <==> x in rows
    decreases |ds|
  {
    if ds != [] {
      var prefix := ds[..|ds| - 1];
      assert forall j :: 0 <= j < |prefix| ==> DescribedIds(prefix)[j] == DescribedIds(ds)[j];
      assert x.instanceId in DescribedIds(prefix) ==> x.instanceId in DescribedIds(ds);
      WriteStatusesFrame(rows, userId, prefix, x);
    }
  }

  /** No two rows share a key. */
  predicate UniqueKeys(rows: seq<Row>) {
    forall i, j :: 0 <= i < j < |rows| ==>
      rows[i].userId != rows[j].userId || rows[i].instanceId != rows[j].instanceId
  }

  /** `update_item` keeps the table keyed: after any number of writes, no two
      rows share a key. */
  lemma {:induction false} UpsertKeepsKeys(rows: seq<Row>, userId: string, instanceId: string, status: string)
    requires UniqueKeys(rows)
    ensures UniqueKeys(Upsert(rows, userId, instanceId, status))
    decreases |rows|
  {
    if rows != [] && !(rows[0].userId == userId && rows[0].instanceId == instanceId) {
      var tail := Upsert(rows[1..], userId, instanceId, status);
      UpsertKeepsKeys(rows[1..], userId, instanceId, status);
      var r := [rows[0]] + tail;
      forall j | 0 < j < |r|
        ensures r[0].userId != r[j].userId || r[0].instanceId != r[j].instanceId
      {
        var y := r[j];
        assert y in tail;
        if y.userId != userId || y.instanceId != instanceId {
          assert y in rows[1..];
        }
      }
    }
  }

  lemma {:induction false} WriteStatusesKeepsKeys(rows: seq<Row>, userId: string, ds: seq<Described>)
    requires UniqueKeys(rows)
    ensures UniqueKeys(WriteStatuses(rows, userId, ds))
    decreases |ds|
  {
    if ds != [] {
      var last := ds[|ds| - 1];
      WriteStatusesKeepsKeys(rows, userId, ds[..|ds| - 1]);
      UpsertKeepsKeys(WriteStatuses(rows, userId, ds[..|ds| - 1]), userId, last.instanceId, DerivedState(last));
    }
  }

  /** Every returned instance was reported by the provider and belongs to the
      resolved rows, with the derived state; every resolved row the provider
      reported is returned. */
  lemma ResponseIsDescribed(rows: seq<Row>, users: seq<UserInfo>, assignments: seq<Assignment>, userId: string,
                            describe: Option<seq<Described>>, fails: set<string>, x: Row)
    requires ListInstances(rows, users, assignments, userId, describe, fails).0.Ok?
    requires Resolve(users, assignments, rows, userId).Instances?
    requires describe.Some?
    ensures var entries := ListInstances(rows, users, assignments, userId, describe, fails).0.value;
            && (forall e :: e in entries ==>
                  && e.row in Resolve(users, assignments, rows, userId).instances
                  && e.row.instanceId in DescribedIds(describe.value))
            && (x in Resolve(users, assignments, rows, userId).instances
                && x.instanceId in DescribedIds(describe.value)
                ==> Entry(x, StateOf(describe.value, x.instanceId)) in entries)
  {
  }

  /** A failed listing leaves the table as the completed writes made it; only a
      successful one has written every reported instance. */
  lemma FailureKeepsEarlierWrites(rows: seq<Row>, users: seq<UserInfo>, assignments: seq<Assignment>, userId: string,
                                  describe: Option<seq<Described>>, fails: set<string>)
    requires userId != "" && Resolve(users, assignments, rows, userId).Instances?
    requires describe.Some?
    ensures var (reply, rows') := ListInstances(rows, users, assignments, userId, describe, fails);
            var writeId := Resolve(users, assignments, rows, userId).writeId;
            var n := FirstFault(describe.value, fails);
            && (reply.Ok? <==> Resolve(users, assignments, rows, userId).instances == [] || n == |describe.value|)
            && (Resolve(users, assignments, rows, userId).instances != [] ==>
                  rows' == WriteStatuses(rows, writeId, describe.value[..n]))
  {
    var ds := describe.value;
    assert ds[..|ds|] == ds;
  }

  // ---------------------------------------------------------------------------
  // The handler over the user-data table

  /** `any(...)` over the status checks. */
  method CheckInitialized(checks: seq<StatusCheck>) returns (ok: bool)
    ensures ok == Initialized(checks)
  {
    ok := false;
    var i := 0;
    while i < |checks| && !ok
      invariant 0 <= i <= |checks|
      invariant ok <==> exists j :: 0 <= j < i && (checks[j].system == Some("ok") || checks[j].instance == Some("ok"))
      decreases |checks| - i
    {
      ok := checks[i].system == Some("ok") || checks[i].instance == Some("ok");
      i := i + 1;
    }
  }

  /** The user-data table, written by the handler. */
  class UserData {
    var rows: seq<Row>

    constructor (rows: seq<Row>)
      ensures this.rows == rows
    {
      this.rows := rows;
    }

    /** The listing request: resolve, describe, write each reported instance's
        state, answer with the reported instances. */
    method HandleList(users: seq<UserInfo>, assignments: seq<Assignment>, userId: string,
                      describe: Option<seq<Described>>, fails: set<string>) returns (reply: Reply<seq<Entry>>)
      modifies this
      ensures (reply, rows) == ListInstances(old(rows), users, assignments, userId, describe, fails)
    {
      if userId == "" {
        return Fail(400);
      }
      var resolution := Resolve(users, assignments, rows, userId);
      if resolution.NoInstances? || resolution.instances == [] {
        return Ok([]);
      }
      if describe.None? {
        return Fail(500);
      }
      var completed := WriteEach(resolution.writeId, describe.value, fails);
      if completed {
        reply := Ok(Enrich(resolution.instances, describe.value));
      } else {
        reply := Fail(500);
      }
    }

    /** The describe loop: derive each reported instance's state and write it
        under `writeId`, stopping at the first instance whose calls raise. */
    method WriteEach(writeId: string, ds: seq<Described>, fails: set<string>) returns (completed: bool)
      modifies this
      ensures completed <==> FirstFault(ds, fails) == |ds|
      ensures completed ==> rows == WriteStatuses(old(rows), writeId, ds)
      ensures !completed ==> rows == WriteStatuses(old(rows), writeId, ds[..FirstFault(ds, fails)])
    {
      var i := 0;
      while i < |ds|
        invariant 0 <= i <= |ds|
        invariant i <= FirstFault(ds, fails)
        invariant rows == WriteStatuses(old(rows), writeId, ds[..i])
      {
        var d := ds[i];
        if d.instanceId in fails {
          return false;
        }
        var initialized := CheckInitialized(d.checks);
        var state := if d.state == "running" && !initialized then "initializing" else d.state;
        assert state == DerivedState(d);
        WriteStatusesStep(old(rows), writeId, ds, i);
        rows := Upsert(rows, writeId, d.instanceId, state);
        i := i + 1;
      }
      assert ds[..i] == ds;
      return true;
    }
  }

  /** One more step of the describe loop. */
  lemma WriteStatusesStep(rows: seq<Row>, writeId: string, ds: seq<Described>, i: nat)
    requires i < |ds|
    ensures WriteStatuses(rows, writeId, ds[..i + 1])
         == Upsert(WriteStatuses(rows, writeId, ds[..i]), writeId, ds[i].instanceId, DerivedState(ds[i]))
  {
    assert ds[..i + 1][..i] == ds[..i];
  }
}
