/**
 Reconciling the remembered-gamepad database with the daemon's snapshots. Rows
 under a stable uid persist across disconnects; rows under a volatile `/sys/` uid
 live for one session.
 */
module Gamepads {
  import opened Wrappers

  datatype Status = Connected | Disconnected
  datatype Connection = Wired | Wireless | UnknownConnection

  /** `battery` and `power` are compared and copied, never interpreted. */
  datatype Pad = Pad(name: string, id: string, uid: string, status: Status,
                     battery: Option<nat>, connection: Connection, power: int)

  predicate IsVolatile(uid: string) {
    "/sys/" <= uid
  }

  function Uids(pads: seq<Pad>): set<string> {
    set k | 0 <= k < |pads| :: pads[k].uid
  }

  predicate Knows(pads: seq<Pad>, uid: string) {
    uid in Uids(pads)
  }

  lemma KnowsFirstOrRest(pads: seq<Pad>, uid: string)
    requires pads != []
    ensures Knows(pads, uid) <==> pads[0].uid == uid || Knows(pads[1..], uid)
  {
    if Knows(pads[1..], uid) {
      var k :| 0 <= k < |pads[1..]| && pads[1..][k].uid == uid;
      assert pads[k + 1].uid == uid;
    }
    if Knows(pads, uid) && pads[0].uid != uid {
      var k :| 0 <= k < |pads| && pads[k].uid == uid;
      assert pads[1..][k - 1].uid == uid;
    }
  }

  /** Index of the first pad with this uid. */
  function FindUid(pads: seq<Pad>, uid: string): (i: Option<nat>)
    ensures i.Some? <==> Knows(pads, uid)
    ensures i.Some? ==> i.value < |pads| && pads[i.value].uid == uid
    ensures i.Some? ==> forall k :: 0 <= k < i.value ==> pads[k].uid != uid
  {
    if pads == [] then None
    else if pads[0].uid == uid then Some(0)
    else
      KnowsFirstOrRest(pads, uid);
      match FindUid(pads[1..], uid)
      case Some(i) => Some(i + 1)
      case None => None
  }

  /** The row of a connected pad, refreshed; its kernel id stays. */
  function Refreshed(row: Pad, conn: Pad): Pad {
    row.(status := Connected, name := conn.name,
         battery := conn.battery, power := conn.power, connection := conn.connection)
  }

  /** First pass on one row: refreshed, flagged as gone, or dropped. */
  function Revisit(row: Pad, connected: seq<Pad>): Option<Pad> {
    match FindUid(connected, row.uid)
    case Some(i) => Some(Refreshed(row, connected[i]))
    case None => if IsVolatile(row.uid) then None else Some(row.(status := Disconnected))
  }

  function Retained(rows: seq<Pad>, connected: seq<Pad>): seq<Pad> {
    if rows == [] then [] else
    var n := |rows| - 1;
    Retained(rows[..n], connected) + Keep(rows[n], connected)
  }

  predicate SamePair(p: Pad, q: Pad) {
    p.name == q.name && p.connection == q.connection
  }

  /** A row whose identity this pad may take over: same name and connection, other uid. */
  function FindAdoptable(rows: seq<Pad>, conn: Pad): (i: Option<nat>)
    ensures i.Some? ==> i.value < |rows| && rows[i.value].uid != conn.uid && SamePair(rows[i.value], conn)
    ensures i.Some? ==> forall k :: 0 <= k < i.value ==> rows[k].uid == conn.uid || !SamePair(rows[k], conn)
    ensures i.None? ==> forall k :: 0 <= k < |rows| ==> rows[k].uid == conn.uid || !SamePair(rows[k], conn)
  {
    if rows == [] then None
    else if rows[0].uid != conn.uid && SamePair(rows[0], conn) then Some(0)
    else match FindAdoptable(rows[1..], conn)
         case Some(i) => Some(i + 1)
         case None => assert forall k :: 0 < k < |rows| ==> rows[k] == rows[1..][k - 1]; None
  }

  /** Second pass on one connected pad: known, adopted or appended. */
  function Admit(rows: seq<Pad>, conn: Pad): seq<Pad> {
    if Knows(rows, conn.uid) then rows else
    var slot := if IsVolatile(conn.uid) then None else FindAdoptable(rows, conn);
    match slot
    case Some(i) =>
      rows[i := rows[i].(id := conn.id, uid := conn.uid, status := Connected,
                         battery := conn.battery, power := conn.power)]
    case None => rows + [conn.(status := Connected)]
  }

  function AdmitAll(rows: seq<Pad>, connected: seq<Pad>): seq<Pad> {
    if connected == [] then rows else
    var n := |connected| - 1;
    Admit(AdmitAll(rows, connected[..n]), connected[n])
  }

  function Reconciled(rows: seq<Pad>, connected: seq<Pad>): seq<Pad> {
    AdmitAll(Retained(rows, connected), connected)
  }

  /** Some row was refreshed to something new, flagged as gone, or dropped. */
  predicate RowsMove(rows: seq<Pad>, connected: seq<Pad>) {
    rows != [] && (RowsMove(rows[..|rows| - 1], connected)
                   || Revisit(rows[|rows| - 1], connected) != Some(rows[|rows| - 1]))
  }

  /** Some pad was not known when its turn came. */
  predicate PadsArrive(rows: seq<Pad>, connected: seq<Pad>) {
    connected != [] &&
    var n := |connected| - 1;
    PadsArrive(rows, connected[..n]) || !Knows(AdmitAll(rows, connected[..n]), connected[n].uid)
  }

  predicate Changes(rows: seq<Pad>, connected: seq<Pad>) {
    RowsMove(rows, connected) || PadsArrive(Retained(rows, connected), connected)
  }

  /** What the first pass keeps of one row. */
  function Keep(row: Pad, connected: seq<Pad>): seq<Pad> {
    var r := Revisit(row, connected);
    if r.Some? then [r.value] else []
  }

  lemma RetainOneMore(rows: seq<Pad>, connected: seq<Pad>, n: nat)
    requires n < |rows|
    ensures Retained(rows[..n + 1], connected) == Retained(rows[..n], connected) + Keep(rows[n], connected)
    ensures RowsMove(rows[..n + 1], connected) ==
            (RowsMove(rows[..n], connected) || Revisit(rows[n], connected) != Some(rows[n]))
  {
    assert rows[..n + 1][..n] == rows[..n];
  }

  lemma RevisitedAtCut(front: seq<Pad>, before: seq<Pad>, done: nat, keep: seq<Pad>)
    requires done < |before|
    ensures var rows, kept := front + before[done..], |front|;
            && rows[kept] == before[done]
            && rows[..kept] + keep + rows[kept + 1..] == front + keep + before[done + 1..]
  {
    assert (front + before[done..])[..|front|] == front;
    assert (front + before[done..])[|front| + 1..] == before[done + 1..];
  }

  class Registry {
    var rows: seq<Pad>

    constructor ()
      ensures rows == []
    {
      rows := [];
    }

    /** The first pass on one row: refresh it, flag it as gone, or take it out. */
    method RevisitAt(k: nat, connected: seq<Pad>) returns (moved: bool)
      requires k < |rows|
      modifies this
      ensures rows == old(rows)[..k] + Keep(old(rows)[k], connected) + old(rows)[k + 1..]
      ensures moved == (Revisit(old(rows)[k], connected) != Some(old(rows)[k]))
    {
      var row := rows[k];
      var c := FindUid(connected, row.uid);
      if c.Some? {
        var conn := connected[c.value];
        moved := row.status != Connected || row.battery != conn.battery || row.power != conn.power
                 || row.connection != conn.connection || row.name != conn.name;
        if moved {
          rows := rows[k := Refreshed(row, conn)];
        }
      } else if IsVolatile(row.uid) {
        moved := true;
        rows := rows[..k] + rows[k + 1..];
      } else {
        moved := row.status != Disconnected;
        if moved {
          rows := rows[k := row.(status := Disconnected)];
        }
      }
    }

    /** First pass, over every row. */
    method RetainRows(connected: seq<Pad>) returns (changed: bool)
      modifies this
      ensures rows == Retained(old(rows), connected)
      ensures changed == RowsMove(old(rows), connected)
    {
      changed := false;
      var done, kept := 0, 0;   // rows visited, and how many of those stand at the front
      var total := |rows|;
      ghost var before := rows;
      while done < total
        invariant 0 <= done <= total == |before|
        invariant rows == Retained(before[..done], connected) + before[done..]
        invariant kept == |Retained(before[..done], connected)|
        invariant changed == RowsMove(before[..done], connected)
      {
        RevisitedAtCut(Retained(before[..done], connected), before, done, Keep(before[done], connected));
        RetainOneMore(before, connected, done);
        var length := |rows|;
        var moved := RevisitAt(kept, connected);
        changed := changed || moved;
        if |rows| == length {
          kept := kept + 1;
        }
        done := done + 1;
      }
      assert before[..done] == before && before[done..] == [];
    }

    /** Second pass: adopt or append pads not yet known under their uid. */
    method AdmitPads(connected: seq<Pad>) returns (changed: bool)
      modifies this
      ensures rows == AdmitAll(old(rows), connected)
      ensures changed == PadsArrive(old(rows), connected)
    {
      changed := false;
      for n := 0 to |connected|
        invariant rows == AdmitAll(old(rows), connected[..n])
        invariant changed == PadsArrive(old(rows), connected[..n])
      {
        assert connected[..n + 1][..n] == connected[..n];
        var conn := connected[n];
        if Knows(rows, conn.uid) {
          continue;
        }
        changed := true;
        if !IsVolatile(conn.uid) {
          var slot := FindAdoptable(rows, conn);
          if slot.Some? {
            rows := rows[slot.value := rows[slot.value].(id := conn.id, uid := conn.uid, status := Connected,
                                                          battery := conn.battery, power := conn.power)];
            continue;
          }
        }
        rows := rows + [conn.(status := Connected)];
      }
      assert connected[..|connected|] == connected;
    }

    method Reconcile(connected: seq<Pad>) returns (changed: bool)
      modifies this
      ensures rows == Reconciled(old(rows), connected)
      ensures changed == Changes(old(rows), connected)
    {
      var moved := RetainRows(connected);
      var arrived := AdmitPads(connected);
      changed := moved || arrived;
    }
  }

  // ----- distinct uids -----

  predicate DistinctUids(pads: seq<Pad>) {
    forall i, j :: 0 <= i < j < |pads| ==> pads[i].uid != pads[j].uid
  }

  lemma UidsOfAppend(pads: seq<Pad>, p: Pad)
    ensures Uids(pads + [p]) == Uids(pads) + {p.uid}
  {
    var all := pads + [p];
    assert all[|pads|] == p;
    assert forall k :: 0 <= k < |pads| ==> all[k] == pads[k];
  }

  /** Dropping the last pad takes its uid away, at most. */
  lemma UidsOfLast(pads: seq<Pad>)
    requires pads != []
    ensures Uids(pads) == Uids(pads[..|pads| - 1]) + {pads[|pads| - 1].uid}
    ensures DistinctUids(pads) ==> pads[|pads| - 1].uid !in Uids(pads[..|pads| - 1])
  {
    UidsOfAppend(pads[..|pads| - 1], pads[|pads| - 1]);
    assert pads == pads[..|pads| - 1] + [pads[|pads| - 1]];
  }

  lemma AdmitKeepsDistinct(rows: seq<Pad>, conn: Pad)
    requires DistinctUids(rows)
    ensures DistinctUids(Admit(rows, conn))
    ensures Uids(Admit(rows, conn)) <= Uids(rows) + {conn.uid}
    ensures Knows(Admit(rows, conn), conn.uid)
  {
    var after := Admit(rows, conn);
    if !Knows(rows, conn.uid) {
      var slot := if IsVolatile(conn.uid) then None else FindAdoptable(rows, conn);
      if slot.Some? {
        assert after[slot.value].uid == conn.uid;
      } else {
        UidsOfAppend(rows, conn.(status := Connected));
      }
    }
  }

  lemma {:induction false} AdmitAllKeepsDistinct(rows: seq<Pad>, connected: seq<Pad>)
    requires DistinctUids(rows)
    ensures DistinctUids(AdmitAll(rows, connected))
    ensures Uids(AdmitAll(rows, connected)) <= Uids(rows) + Uids(connected)
  {
    if connected != [] {
      var n := |connected| - 1;
      AdmitAllKeepsDistinct(rows, connected[..n]);
      AdmitKeepsDistinct(AdmitAll(rows, connected[..n]), connected[n]);
      UidsOfLast(connected);
    }
  }

  // ----- growth over any sequence of snapshots -----

  /** The database after a sequence of snapshots. */
  function AfterAll(rows: seq<Pad>, snapshots: seq<seq<Pad>>): seq<Pad> {
    if snapshots == [] then rows else
    var n := |snapshots| - 1;
    Reconciled(AfterAll(rows, snapshots[..n]), snapshots[n])
  }

  function Stable(uids: set<string>): set<string> {
    set u | u in uids && !IsVolatile(u)
  }

  function VolatileOnes(uids: set<string>): set<string> {
    set u | u in uids && IsVolatile(u)
  }

  /** Every stable uid the database or a snapshot ever held. */
  function StableEver(rows: seq<Pad>, snapshots: seq<seq<Pad>>): set<string> {
    if snapshots == [] then Stable(Uids(rows)) else
    var n := |snapshots| - 1;
    StableEver(rows, snapshots[..n]) + Stable(Uids(snapshots[n]))
  }

  lemma {:induction false} RetainedUids(rows: seq<Pad>, connected: seq<Pad>)
    requires DistinctUids(rows)
    ensures DistinctUids(Retained(rows, connected))
    ensures Uids(Retained(rows, connected)) <= Uids(rows)
    ensures forall u <- Uids(Retained(rows, connected)) :: IsVolatile(u) ==> Knows(connected, u)
  {
    if rows != [] {
      var n := |rows| - 1;
      RetainedUids(rows[..n], connected);
      UidsOfLast(rows);
      var r := Revisit(rows[n], connected);
      if r.Some? {
        UidsOfAppend(Retained(rows[..n], connected), r.value);
      }
    }
  }

  lemma {:induction false} UidsAreBounded(rows: seq<Pad>, snapshots: seq<seq<Pad>>)
    requires DistinctUids(rows) && snapshots != []
    ensures var after := AfterAll(rows, snapshots);
            && DistinctUids(after)
            && VolatileOnes(Uids(after)) <= VolatileOnes(Uids(snapshots[|snapshots| - 1]))
            && Stable(Uids(after)) <= StableEver(rows, snapshots)
  {
    var n := |snapshots| - 1;
    var prior := AfterAll(rows, snapshots[..n]);
    if n > 0 {
      UidsAreBounded(rows, snapshots[..n]);
    } else {
      assert snapshots[..n] == [];
    }
    RetainedUids(prior, snapshots[n]);
    AdmitAllKeepsDistinct(Retained(prior, snapshots[n]), snapshots[n]);
  }

  lemma {:induction false} DistinctRowsCount(pads: seq<Pad>)
    requires DistinctUids(pads)
    ensures |Uids(pads)| == |pads|
  {
    if pads == [] {
      assert Uids(pads) == {};
    } else {
      var n := |pads| - 1;
      DistinctRowsCount(pads[..n]);
      UidsOfLast(pads);
    }
  }

  lemma SubsetSize(a: set<string>, b: set<string>)
    requires a <= b
    ensures |a| <= |b|
  {
    assert b == a + (b - a);
  }

  /**
   Growth: whatever the snapshots, uids stay distinct, every volatile row is a pad
   connected now, and there are at most as many rows as stable uids ever seen plus
   volatile pads connected now.
   */
  lemma DatabaseGrowthIsBounded(rows: seq<Pad>, snapshots: seq<seq<Pad>>)
    requires DistinctUids(rows) && snapshots != []
    ensures var after, now := AfterAll(rows, snapshots), snapshots[|snapshots| - 1];
            && DistinctUids(after)
            && (forall k :: 0 <= k < |after| && IsVolatile(after[k].uid) ==> Knows(now, after[k].uid))
            && |after| <= |StableEver(rows, snapshots)| + |VolatileOnes(Uids(now))|
  {
    UidsAreBounded(rows, snapshots);
    var after, now := AfterAll(rows, snapshots), snapshots[|snapshots| - 1];
    forall k | 0 <= k < |after| && IsVolatile(after[k].uid)
      ensures Knows(now, after[k].uid)
    {
      assert after[k].uid in VolatileOnes(Uids(after));
    }
    DistinctRowsCount(after);
    var stable, session := Stable(Uids(after)), VolatileOnes(Uids(after));
    assert Uids(after) == stable + session && stable * session == {};
    SubsetSize(stable, StableEver(rows, snapshots));
    SubsetSize(session, VolatileOnes(Uids(now)));
  }

  // ----- completeness and idempotence -----

  /** The row shows the pad as connected, with its current fields. */
  predicate Shows(row: Pad, conn: Pad) {
    && row.uid == conn.uid && row.status == Connected
    && SamePair(row, conn) && row.battery == conn.battery && row.power == conn.power
  }

  /** No pad that may look for a row to adopt shares its name and connection with another connected pad. */
  predicate Uncontested(rows: seq<Pad>, connected: seq<Pad>) {
    forall i, j :: 0 <= i < |connected| && 0 <= j < |connected| && i != j
                   && !IsVolatile(connected[i].uid) && !Knows(rows, connected[i].uid) ==>
                   !SamePair(connected[i], connected[j])
  }

  predicate DistinctPairs(connected: seq<Pad>) {
    forall i, j :: 0 <= i < j < |connected| ==> !SamePair(connected[i], connected[j])
  }

  /** A row that stands for a connected pad shows it. */
  predicate Faithful(rows: seq<Pad>, connected: seq<Pad>) {
    forall k, j :: 0 <= k < |rows| && 0 <= j < |connected| && rows[k].uid == connected[j].uid ==>
      Shows(rows[k], connected[j])
  }

  lemma {:induction false} RetainedIsFaithful(rows: seq<Pad>, connected: seq<Pad>)
    requires DistinctUids(connected)
    ensures Faithful(Retained(rows, connected), connected)
  {
    if rows != [] {
      RetainedIsFaithful(rows[..|rows| - 1], connected);
    }
  }

  lemma {:induction false} RetainedKeepsConnected(rows: seq<Pad>, connected: seq<Pad>, uid: string)
    requires Knows(rows, uid) && Knows(connected, uid)
    ensures Knows(Retained(rows, connected), uid)
  {
    var n := |rows| - 1;
    UidsOfLast(rows);
    var prior := Retained(rows[..n], connected);
    var r := Revisit(rows[n], connected);
    if r.Some? {
      UidsOfAppend(prior, r.value);
    } else {
      assert prior + [] == prior;
    }
    if rows[n].uid != uid {
      RetainedKeepsConnected(rows[..n], connected, uid);
    }
  }

  /** Admitting the `n`-th pad keeps every known pad on show. */
  lemma AdmitIsFaithful(rows: seq<Pad>, kept: seq<Pad>, connected: seq<Pad>, n: nat)
    requires n < |connected| && DistinctUids(connected) && Uncontested(rows, connected)
    requires Faithful(kept, connected) && (Knows(rows, connected[n].uid) ==> Knows(kept, connected[n].uid))
    ensures var after := Admit(kept, connected[n]);
            && Faithful(after, connected)
            && Knows(after, connected[n].uid)
            && (forall j :: 0 <= j < |connected| && Knows(kept, connected[j].uid) ==> Knows(after, connected[j].uid))
  {
    var conn, after := connected[n], Admit(kept, connected[n]);
    if !Knows(kept, conn.uid) {
      var slot := if IsVolatile(conn.uid) then None else FindAdoptable(kept, conn);
      if slot.Some? {
        assert after[slot.value].uid == conn.uid;
        forall j | 0 <= j < |connected| && Knows(kept, connected[j].uid)
          ensures Knows(after, connected[j].uid)
        {
          var k := FindUid(kept, connected[j].uid).value;
          assert Shows(kept[k], connected[j]) && !SamePair(connected[n], connected[j]);
          assert k != slot.value && after[k] == kept[k];
        }
      } else {
        UidsOfAppend(kept, conn.(status := Connected));
      }
    }
  }

  lemma {:induction false} AdmitAllIsFaithful(rows: seq<Pad>, kept: seq<Pad>, connected: seq<Pad>, n: nat)
    requires n <= |connected| && DistinctUids(connected) && Uncontested(rows, connected)
    requires Faithful(kept, connected)
    requires forall j :: 0 <= j < |connected| && Knows(rows, connected[j].uid) ==> Knows(kept, connected[j].uid)
    ensures var after := AdmitAll(kept, connected[..n]);
            && Faithful(after, connected)
            && (forall j :: 0 <= j < n ==> Knows(after, connected[j].uid))
            && (forall j :: 0 <= j < |connected| && Knows(kept, connected[j].uid) ==> Knows(after, connected[j].uid))
  {
    if n > 0 {
      AdmitAllIsFaithful(rows, kept, connected, n - 1);
      assert connected[..n][..n - 1] == connected[..n - 1];
      AdmitIsFaithful(rows, AdmitAll(kept, connected[..n - 1]), connected, n - 1);
    } else {
      assert connected[..n] == [];
    }
  }

  /** Completeness: every connected pad has exactly one row, and that row shows it. */
  lemma EveryPadHasItsRow(rows: seq<Pad>, connected: seq<Pad>, j: nat)
    requires DistinctUids(rows) && DistinctUids(connected) && Uncontested(rows, connected)
    requires j < |connected|
    ensures var after := Reconciled(rows, connected);
            exists k :: 0 <= k < |after| && Shows(after[k], connected[j])
                        && forall m :: 0 <= m < |after| && after[m].uid == connected[j].uid ==> m == k
  {
    CompleteAndDistinct(rows, connected);
    var after := Reconciled(rows, connected);
    var k := FindUid(after, connected[j].uid).value;
    assert Shows(after[k], connected[j]);
  }

  lemma CompleteAndDistinct(rows: seq<Pad>, connected: seq<Pad>)
    requires DistinctUids(rows) && DistinctUids(connected) && Uncontested(rows, connected)
    ensures var after := Reconciled(rows, connected);
            && DistinctUids(after) && Faithful(after, connected)
            && (forall j :: 0 <= j < |connected| ==> Knows(after, connected[j].uid))
  {
    RetainedUids(rows, connected);
    RetainedIsFaithful(rows, connected);
    forall j | 0 <= j < |connected| && Knows(rows, connected[j].uid)
      ensures Knows(Retained(rows, connected), connected[j].uid)
    {
      RetainedKeepsConnected(rows, connected, connected[j].uid);
    }
    AdmitAllIsFaithful(rows, Retained(rows, connected), connected, |connected|);
    assert connected[..|connected|] == connected;
    AdmitAllKeepsDistinct(Retained(rows, connected), connected);
  }

  lemma DistinctPairsAreUncontested(rows: seq<Pad>, connected: seq<Pad>)
    requires DistinctPairs(connected)
    ensures Uncontested(rows, connected)
  {}

  lemma {:induction false} AdmitNothing(rows: seq<Pad>, connected: seq<Pad>)
    requires forall j :: 0 <= j < |connected| ==> Knows(rows, connected[j].uid)
    ensures AdmitAll(rows, connected) == rows && !PadsArrive(rows, connected)
  {
    if connected != [] {
      AdmitNothing(rows, connected[..|connected| - 1]);
    }
  }

  lemma {:induction false} RetainNothingNew(rows: seq<Pad>, connected: seq<Pad>)
    ensures RowsMove(rows, connected) <==> exists k :: 0 <= k < |rows| && Revisit(rows[k], connected) != Some(rows[k])
    ensures !RowsMove(rows, connected) ==> Retained(rows, connected) == rows
  {
    if rows != [] {
      var n := |rows| - 1;
      RetainNothingNew(rows[..n], connected);
      assert rows == rows[..n] + [rows[n]];
      assert forall k :: 0 <= k < n ==> rows[..n][k] == rows[k];
    }
  }

  /** A row is either of a connected pad or a stable one flagged as gone. */
  predicate Settled(rows: seq<Pad>, connected: seq<Pad>) {
    forall k :: 0 <= k < |rows| ==>
      Knows(connected, rows[k].uid) || (rows[k].status == Disconnected && !IsVolatile(rows[k].uid))
  }

  lemma {:induction false} RetainedIsSettled(rows: seq<Pad>, connected: seq<Pad>)
    ensures Settled(Retained(rows, connected), connected)
  {
    if rows != [] {
      RetainedIsSettled(rows[..|rows| - 1], connected);
    }
  }

  lemma {:induction false} AdmitAllStaysSettled(kept: seq<Pad>, connected: seq<Pad>, n: nat)
    requires Settled(kept, connected) && n <= |connected|
    ensures Settled(AdmitAll(kept, connected[..n]), connected)
  {
    if n > 0 {
      AdmitAllStaysSettled(kept, connected, n - 1);
      assert connected[..n][..n - 1] == connected[..n - 1];
      assert Knows(connected, connected[n - 1].uid);
    }
  }

  /** Every connected pad ends up with a row. */
  predicate Complete(rows: seq<Pad>, connected: seq<Pad>) {
    forall j :: 0 <= j < |connected| ==> Knows(Reconciled(rows, connected), connected[j].uid)
  }

  lemma AdmitKeepsFaithful(kept: seq<Pad>, connected: seq<Pad>, n: nat)
    requires n < |connected| && DistinctUids(connected) && Faithful(kept, connected)
    ensures Faithful(Admit(kept, connected[n]), connected)
  {}

  lemma {:induction false} AdmitAllKeepsFaithful(kept: seq<Pad>, connected: seq<Pad>, n: nat)
    requires n <= |connected| && DistinctUids(connected) && Faithful(kept, connected)
    ensures Faithful(AdmitAll(kept, connected[..n]), connected)
  {
    if n > 0 {
      AdmitAllKeepsFaithful(kept, connected, n - 1);
      assert connected[..n][..n - 1] == connected[..n - 1];
      AdmitKeepsFaithful(AdmitAll(kept, connected[..n - 1]), connected, n - 1);
    }
  }

  /** A pad without a row is admitted anew. */
  lemma {:induction false} StrangerArrives(kept: seq<Pad>, connected: seq<Pad>, j: nat)
    requires DistinctUids(kept) && DistinctUids(connected) && j < |connected| && !Knows(kept, connected[j].uid)
    ensures PadsArrive(kept, connected)
  {
    var n := |connected| - 1;
    if j < n {
      StrangerArrives(kept, connected[..n], j);
    } else {
      AdmitAllKeepsDistinct(kept, connected[..n]);
      UidsOfLast(connected);
    }
  }

  /**
   Idempotence is completeness: reconciling again with the same snapshot changes
   nothing, and says so, exactly when every connected pad had got its row.
   */
  lemma IdempotentIffComplete(rows: seq<Pad>, connected: seq<Pad>)
    requires DistinctUids(rows) && DistinctUids(connected)
    ensures var once := Reconciled(rows, connected);
            && (Complete(rows, connected) <==> !Changes(once, connected))
            && (Complete(rows, connected) ==> Reconciled(once, connected) == once)
  {
    var kept, once := Retained(rows, connected), Reconciled(rows, connected);
    assert connected[..|connected|] == connected;
    RetainedUids(rows, connected);
    AdmitAllKeepsDistinct(kept, connected);
    if Complete(rows, connected) {
      RetainedIsFaithful(rows, connected);
      AdmitAllKeepsFaithful(kept, connected, |connected|);
      RetainedIsSettled(rows, connected);
      AdmitAllStaysSettled(kept, connected, |connected|);
      SettledStays(once, connected);
      AdmitNothing(once, connected);
    } else {
      var j :| 0 <= j < |connected| && !Knows(once, connected[j].uid);
      RetainedUids(once, connected);
      StrangerArrives(Retained(once, connected), connected, j);
    }
  }

  lemma SettledStays(once: seq<Pad>, connected: seq<Pad>)
    requires Faithful(once, connected) && Settled(once, connected)
    ensures Retained(once, connected) == once && !RowsMove(once, connected)
  {
    forall k | 0 <= k < |once|
      ensures Revisit(once[k], connected) == Some(once[k])
    {
      var j := FindUid(connected, once[k].uid);
      if j.Some? {
        assert Shows(once[k], connected[j.value]);
      }
    }
    RetainNothingNew(once, connected);
  }

  /** With no contested adoption, reconciling again changes nothing and says so. */
  lemma ReconcilingTwiceChangesNothing(rows: seq<Pad>, connected: seq<Pad>)
    requires DistinctUids(rows) && DistinctUids(connected) && Uncontested(rows, connected)
    ensures var once := Reconciled(rows, connected);
            Reconciled(once, connected) == once && !Changes(once, connected)
  {
    CompleteAndDistinct(rows, connected);
    IdempotentIffComplete(rows, connected);
  }

  // ----- exactly which databases lose a pad -----

  /** The database when the `j`-th pad has its turn in the second pass. */
  function AtTurn(rows: seq<Pad>, connected: seq<Pad>, j: nat): seq<Pad>
    requires j <= |connected|
  {
    AdmitAll(Retained(rows, connected), connected[..j])
  }

  /** At its turn the `j`-th pad is unknown and stable, and the first row it may adopt stands for an earlier pad. */
  predicate TakesEarlierRow(rows: seq<Pad>, connected: seq<Pad>, j: nat)
    requires j < |connected|
  {
    var kept, conn := AtTurn(rows, connected, j), connected[j];
    !Knows(kept, conn.uid) && !IsVolatile(conn.uid) &&
    var slot := FindAdoptable(kept, conn);
    slot.Some? && Knows(connected[..j], kept[slot.value].uid)
  }

  lemma OneMoreTurn(rows: seq<Pad>, connected: seq<Pad>, j: nat)
    requires j < |connected|
    ensures AtTurn(rows, connected, j + 1) == Admit(AtTurn(rows, connected, j), connected[j])
  {
    assert connected[..j + 1][..j] == connected[..j];
  }

  lemma AdmitSparesOthers(kept: seq<Pad>, conn: Pad, uid: string)
    requires Knows(kept, uid)
    requires !Knows(kept, conn.uid) && !IsVolatile(conn.uid) && FindAdoptable(kept, conn).Some? ==>
               kept[FindAdoptable(kept, conn).value].uid != uid
    ensures Knows(Admit(kept, conn), uid)
  {
    var k := FindUid(kept, uid).value;
    assert Admit(kept, conn)[k].uid == uid;
  }

  lemma {:induction false} UntakenRowsStay(rows: seq<Pad>, connected: seq<Pad>, n: nat)
    requires n <= |connected|
    requires forall j :: 0 <= j < n ==> !TakesEarlierRow(rows, connected, j)
    ensures forall i :: 0 <= i < n ==> Knows(AtTurn(rows, connected, n), connected[i].uid)
  {
    if n > 0 {
      UntakenRowsStay(rows, connected, n - 1);
      OneMoreTurn(rows, connected, n - 1);
      var kept, conn := AtTurn(rows, connected, n - 1), connected[n - 1];
      forall i | 0 <= i < n
        ensures Knows(Admit(kept, conn), connected[i].uid)
      {
        if i < n - 1 {
          assert connected[..n - 1][i].uid == connected[i].uid && Knows(connected[..n - 1], connected[i].uid);
          assert !TakesEarlierRow(rows, connected, n - 1);
          AdmitSparesOthers(kept, conn, connected[i].uid);
        } else {
          AdmittedIsKnown(kept, conn);
        }
      }
    }
  }

  lemma AdmittedIsKnown(kept: seq<Pad>, conn: Pad)
    ensures Knows(Admit(kept, conn), conn.uid)
  {
    var slot := if IsVolatile(conn.uid) then None else FindAdoptable(kept, conn);
    if !Knows(kept, conn.uid) {
      assert Admit(kept, conn)[if slot.Some? then slot.value else |kept|].uid == conn.uid;
    }
  }

  /** A uid that no later pad carries does not come back. */
  lemma {:induction false} LostStaysLost(rows: seq<Pad>, connected: seq<Pad>, from: nat, n: nat, uid: string)
    requires from <= n <= |connected| && !Knows(AtTurn(rows, connected, from), uid)
    requires forall m :: from <= m < n ==> connected[m].uid != uid
    ensures !Knows(AtTurn(rows, connected, n), uid)
    decreases n
  {
    if from < n {
      LostStaysLost(rows, connected, from, n - 1, uid);
      OneMoreTurn(rows, connected, n - 1);
      UidsOfAdmit(AtTurn(rows, connected, n - 1), connected[n - 1]);
    }
  }

  /** The uid of an adopted row is gone. */
  lemma AdoptedUidIsGone(kept: seq<Pad>, conn: Pad)
    requires DistinctUids(kept) && !Knows(kept, conn.uid) && !IsVolatile(conn.uid) && FindAdoptable(kept, conn).Some?
    ensures !Knows(Admit(kept, conn), kept[FindAdoptable(kept, conn).value].uid)
  {
    var slot := FindAdoptable(kept, conn).value;
    var after := Admit(kept, conn);
    forall k | 0 <= k < |after|
      ensures after[k].uid != kept[slot].uid
    {
      assert k != slot ==> after[k] == kept[k];
    }
  }

  lemma TakenRowIsLost(rows: seq<Pad>, connected: seq<Pad>, j: nat)
    requires DistinctUids(rows) && DistinctUids(connected) && j < |connected| && TakesEarlierRow(rows, connected, j)
    ensures !Complete(rows, connected)
  {
    var kept, conn := AtTurn(rows, connected, j), connected[j];
    var uid := kept[FindAdoptable(kept, conn).value].uid;
    RetainedUids(rows, connected);
    AdmitAllKeepsDistinct(Retained(rows, connected), connected[..j]);
    OneMoreTurn(rows, connected, j);
    AdoptedUidIsGone(kept, conn);
    var i := FindUid(connected[..j], uid).value;
    assert connected[i].uid == uid;
    LostStaysLost(rows, connected, j + 1, |connected|, uid);
    assert connected[..|connected|] == connected;
  }

  /** For each database: no connected pad is lost exactly when no pad, at its turn, takes the row of an earlier one. */
  lemma CompleteIffNoRowTaken(rows: seq<Pad>, connected: seq<Pad>)
    requires DistinctUids(rows) && DistinctUids(connected)
    ensures Complete(rows, connected) <==> forall j :: 0 <= j < |connected| ==> !TakesEarlierRow(rows, connected, j)
  {
    if forall j :: 0 <= j < |connected| ==> !TakesEarlierRow(rows, connected, j) {
      UntakenRowsStay(rows, connected, |connected|);
      assert connected[..|connected|] == connected;
    } else {
      var j :| 0 <= j < |connected| && TakesEarlierRow(rows, connected, j);
      TakenRowIsLost(rows, connected, j);
    }
  }

  // ----- what is remembered -----

  /** The first pass treats rows one by one, in order. */
  lemma {:induction false} RetainedAppends(a: seq<Pad>, b: seq<Pad>, connected: seq<Pad>)
    ensures Retained(a + b, connected) == Retained(a, connected) + Retained(b, connected)
  {
    if b == [] {
      assert a + b == a;
    } else {
      var n := |b| - 1;
      assert (a + b)[..|a + b| - 1] == a + b[..n];
      RetainedAppends(a, b[..n], connected);
    }
  }

  /**
   One row: a connected pad's takes everything but its id from the snapshot, an absent
   stable one is kept and flagged, an absent volatile one goes.
   */
  lemma RetainedRow(row: Pad, connected: seq<Pad>)
    ensures Knows(connected, row.uid) ==>
              exists i :: 0 <= i < |connected| && connected[i].uid == row.uid
                          && (forall k :: 0 <= k < i ==> connected[k].uid != row.uid)
                          && Retained([row], connected) == [connected[i].(id := row.id, status := Connected)]
    ensures !Knows(connected, row.uid) && !("/sys/" <= row.uid) ==>
              Retained([row], connected) == [row.(status := Disconnected)]
    ensures !Knows(connected, row.uid) && "/sys/" <= row.uid ==> Retained([row], connected) == []
  {
    assert [row][..0] == [] && [row][0] == row;
    if Knows(connected, row.uid) {
      var i := FindUid(connected, row.uid).value;
      assert Retained([row], connected) == [connected[i].(id := row.id, status := Connected)];
    }
  }

  /** Both together: what becomes of any row of the database, wherever it stands. */
  lemma RowsAreRetained(rows: seq<Pad>, connected: seq<Pad>, k: nat)
    requires k < |rows|
    ensures Retained(rows, connected)
         == Retained(rows[..k], connected) + Retained([rows[k]], connected) + Retained(rows[k + 1..], connected)
  {
    assert rows == rows[..k] + [rows[k]] + rows[k + 1..];
    RetainedAppends(rows[..k] + [rows[k]], rows[k + 1..], connected);
    RetainedAppends(rows[..k], [rows[k]], connected);
  }

  /**
   One pad's turn: known, it changes nothing; new, its row is the snapshot's own entry,
   in place of the first row of the same name and connection if the pad is stable and
   there is one, and at the end otherwise.
   */
  lemma AdmittedRow(kept: seq<Pad>, conn: Pad)
    ensures Knows(kept, conn.uid) ==> Admit(kept, conn) == kept
    ensures !Knows(kept, conn.uid) && ("/sys/" <= conn.uid || !HasTwin(kept, conn)) ==>
              Admit(kept, conn) == kept + [conn.(status := Connected)]
    ensures !Knows(kept, conn.uid) && !("/sys/" <= conn.uid) && HasTwin(kept, conn) ==>
              exists k :: 0 <= k < |kept| && SamePair(kept[k], conn)
                          && (forall m :: 0 <= m < k ==> !SamePair(kept[m], conn))
                          && Admit(kept, conn) == kept[k := conn.(status := Connected)]
  {
    if !Knows(kept, conn.uid) {
      assert forall k :: 0 <= k < |kept| ==> kept[k].uid != conn.uid;
      if !IsVolatile(conn.uid) && HasTwin(kept, conn) {
        var slot := FindAdoptable(kept, conn).value;
        assert Admit(kept, conn) == kept[slot := conn.(status := Connected)];
      }
    }
  }

  /** At its turn the `j`-th pad, unknown and stable, takes over the row of this uid. */
  predicate Adopts(rows: seq<Pad>, connected: seq<Pad>, j: nat, uid: string)
    requires j < |connected|
  {
    var kept, conn := AtTurn(rows, connected, j), connected[j];
    !Knows(kept, conn.uid) && !IsVolatile(conn.uid) &&
    var slot := FindAdoptable(kept, conn);
    slot.Some? && kept[slot.value].uid == uid
  }

  predicate IsAdopted(rows: seq<Pad>, connected: seq<Pad>, uid: string) {
    exists j :: 0 <= j < |connected| && Adopts(rows, connected, j, uid)
  }

  lemma {:induction false} UnadoptedRowStays(rows: seq<Pad>, connected: seq<Pad>, row: Pad, n: nat)
    requires n <= |connected| && row in Retained(rows, connected) && !IsAdopted(rows, connected, row.uid)
    ensures row in AtTurn(rows, connected, n)
  {
    if n == 0 {
      assert connected[..0] == [];
    } else {
      UnadoptedRowStays(rows, connected, row, n - 1);
      OneMoreTurn(rows, connected, n - 1);
      var kept, conn := AtTurn(rows, connected, n - 1), connected[n - 1];
      assert !Adopts(rows, connected, n - 1, row.uid);
      AdmitSparesRow(kept, conn, row);
    }
  }

  lemma AdmitSparesRow(kept: seq<Pad>, conn: Pad, row: Pad)
    requires row in kept
    requires !Knows(kept, conn.uid) && !IsVolatile(conn.uid) && FindAdoptable(kept, conn).Some? ==>
               kept[FindAdoptable(kept, conn).value].uid != row.uid
    ensures row in Admit(kept, conn)
  {
    var k :| 0 <= k < |kept| && kept[k] == row;
    assert Admit(kept, conn)[k] == row;
  }

  /** Remembering: an absent stable row is in the result, flagged and otherwise as it was, unless a pad adopts it. */
  lemma AbsentRowIsRemembered(rows: seq<Pad>, connected: seq<Pad>, k: nat)
    requires k < |rows| && !("/sys/" <= rows[k].uid) && !Knows(connected, rows[k].uid)
    ensures rows[k].(status := Disconnected) in Reconciled(rows, connected) || IsAdopted(rows, connected, rows[k].uid)
  {
    RowsAreRetained(rows, connected, k);
    RetainedRow(rows[k], connected);
    var row := rows[k].(status := Disconnected);
    assert row in [row];
    if !IsAdopted(rows, connected, row.uid) {
      UnadoptedRowStays(rows, connected, row, |connected|);
      assert connected[..|connected|] == connected;
    }
  }

  lemma StableUidStays(rows: seq<Pad>, connected: seq<Pad>, uid: string)
    requires Knows(rows, uid) && !IsVolatile(uid) && !IsAdopted(rows, connected, uid)
    ensures Knows(Reconciled(rows, connected), uid)
  {
    var k := FindUid(rows, uid).value;
    RowsAreRetained(rows, connected, k);
    RetainedRow(rows[k], connected);
    var kept := Retained([rows[k]], connected);
    assert kept[0] in kept && kept[0].uid == uid;
    assert kept[0] in Retained(rows, connected);
    UnadoptedRowStays(rows, connected, kept[0], |connected|);
    assert connected[..|connected|] == connected;
  }

  /** Over any snapshots a stable uid keeps its row until a pad adopts it. */
  lemma {:induction false} StableUidIsNeverForgotten(rows: seq<Pad>, snapshots: seq<seq<Pad>>, uid: string)
    requires Knows(rows, uid) && !IsVolatile(uid)
    requires forall n :: 0 <= n < |snapshots| ==> !IsAdopted(AfterAll(rows, snapshots[..n]), snapshots[n], uid)
    ensures Knows(AfterAll(rows, snapshots), uid)
  {
    if snapshots != [] {
      var n := |snapshots| - 1;
      assert forall m :: 0 <= m < n ==> snapshots[..n][..m] == snapshots[..m];
      StableUidIsNeverForgotten(rows, snapshots[..n], uid);
      StableUidStays(AfterAll(rows, snapshots[..n]), snapshots[n], uid);
    }
  }

  /** A stable pad that goes and comes back finds its row, under its old id and with its new fields. */
  lemma ReconnectedPadIsTheSame(row: Pad, conn: Pad)
    requires conn.uid == row.uid && !IsVolatile(row.uid)
    ensures Reconciled(Reconciled([row], []), [conn]) == [conn.(id := row.id, status := Connected)]
  {
    RetainedRow(row, []);
    var gone := row.(status := Disconnected);
    assert Reconciled([row], []) == [gone];
    assert [conn][0] == conn && Knows([conn], gone.uid);
    RetainedRow(gone, [conn]);
    var back := conn.(id := row.id, status := Connected);
    assert Retained([gone], [conn]) == [back];
    assert AdmitAll([gone], []) == [gone] && AdmitAll([back], []) == [back];
    assert [conn][..0] == [] && [back][0].uid == conn.uid && Knows([back], conn.uid);
  }

  // ----- the snapshots that are safe for every database -----

  /** Of two connected pads with the same name and connection, the later one in the snapshot has a volatile uid. */
  predicate LaterTwinsAreVolatile(connected: seq<Pad>) {
    forall i, j :: 0 <= i < j < |connected| && SamePair(connected[i], connected[j]) ==> IsVolatile(connected[j].uid)
  }

  lemma {:induction false} AdmittedPadsStay(kept: seq<Pad>, connected: seq<Pad>, n: nat)
    requires n <= |connected| && DistinctUids(connected)
    requires LaterTwinsAreVolatile(connected) && Faithful(kept, connected)
    ensures forall i :: 0 <= i < n ==> Knows(AdmitAll(kept, connected[..n]), connected[i].uid)
  {
    if n > 0 {
      AdmittedPadsStay(kept, connected, n - 1);
      AdmitAllKeepsFaithful(kept, connected, n - 1);
      assert connected[..n][..n - 1] == connected[..n - 1];
      AdmitSparesEarlier(AdmitAll(kept, connected[..n - 1]), connected, n - 1);
    }
  }

  lemma AdmitSparesEarlier(kept: seq<Pad>, connected: seq<Pad>, n: nat)
    requires n < |connected| && LaterTwinsAreVolatile(connected) && Faithful(kept, connected)
    ensures var after := Admit(kept, connected[n]);
            && Knows(after, connected[n].uid)
            && forall i :: 0 <= i < n && Knows(kept, connected[i].uid) ==> Knows(after, connected[i].uid)
  {
    var conn, after := connected[n], Admit(kept, connected[n]);
    if !Knows(kept, conn.uid) {
      var slot := if IsVolatile(conn.uid) then None else FindAdoptable(kept, conn);
      if slot.Some? {
        assert after[slot.value].uid == conn.uid;
        forall i | 0 <= i < n && Knows(kept, connected[i].uid)
          ensures Knows(after, connected[i].uid)
        {
          var k := FindUid(kept, connected[i].uid).value;
          assert Shows(kept[k], connected[i]) && !SamePair(connected[i], conn);
          assert k != slot.value && after[k] == kept[k];
        }
      } else {
        UidsOfAppend(kept, conn.(status := Connected));
      }
    }
  }

  predicate HasTwin(rows: seq<Pad>, pad: Pad) {
    exists k :: 0 <= k < |rows| && SamePair(rows[k], pad)
  }

  /** Pads admitted leave a row of their name and connection behind, whoever owns it later. */
  lemma AdmitKeepsTwins(kept: seq<Pad>, conn: Pad, pad: Pad)
    requires HasTwin(kept, pad)
    ensures HasTwin(Admit(kept, conn), pad)
  {
    var k :| 0 <= k < |kept| && SamePair(kept[k], pad);
    assert SamePair(Admit(kept, conn)[k], pad);
  }

  lemma AdmittedHasTwin(kept: seq<Pad>, conn: Pad)
    requires !Knows(kept, conn.uid)
    ensures HasTwin(Admit(kept, conn), conn)
  {
    var slot := if IsVolatile(conn.uid) then None else FindAdoptable(kept, conn);
    assert SamePair(Admit(kept, conn)[if slot.Some? then slot.value else |kept|], conn);
  }

  /** A stable pad that finds a twin row adds none. */
  lemma AppendedMeansNoTwin(kept: seq<Pad>, conn: Pad, pad: Pad)
    requires !Knows(kept, conn.uid) && !IsVolatile(conn.uid) && HasTwin(kept, pad) && SamePair(pad, conn)
    ensures |Admit(kept, conn)| == |kept|
  {
    var k :| 0 <= k < |kept| && SamePair(kept[k], pad);
    assert Knows(kept, kept[k].uid);
  }

  lemma UidsOfAdmit(kept: seq<Pad>, conn: Pad)
    ensures Uids(Admit(kept, conn)) <= Uids(kept) + {conn.uid}
    ensures |kept| <= |Admit(kept, conn)| <= |kept| + 1
  {
    UidsOfAppend(kept, conn.(status := Connected));
  }

  /** From an empty database: every pad met so far has a twin row, and a stable later twin adds no row. */
  lemma {:induction false} RowsFromNothing(connected: seq<Pad>)
    requires DistinctUids(connected)
    ensures var rows := AdmitAll([], connected);
            && |rows| <= |connected| && Uids(rows) <= Uids(connected)
            && (forall i :: 0 <= i < |connected| ==> HasTwin(rows, connected[i]))
            && (|rows| == |connected| ==> LaterTwinsAreVolatile(connected))
  {
    if connected != [] {
      var n := |connected| - 1;
      var kept, conn := AdmitAll([], connected[..n]), connected[n];
      RowsFromNothing(connected[..n]);
      UidsOfLast(connected);
      UidsOfAdmit(kept, conn);
      AdmittedHasTwin(kept, conn);
      forall i | 0 <= i < n
        ensures HasTwin(Admit(kept, conn), connected[i])
        ensures SamePair(connected[i], conn) && !IsVolatile(conn.uid) ==> |Admit(kept, conn)| <= n
      {
        assert HasTwin(kept, connected[..n][i]);
        AdmitKeepsTwins(kept, conn, connected[i]);
        if SamePair(connected[i], conn) && !IsVolatile(conn.uid) {
          AppendedMeansNoTwin(kept, conn, connected[i]);
        }
      }
      if |Admit(kept, conn)| == n + 1 {
        LaterTwinsExtend(connected);
      }
    }
  }

  lemma LaterTwinsExtend(connected: seq<Pad>)
    requires connected != [] && LaterTwinsAreVolatile(connected[..|connected| - 1])
    requires forall i :: 0 <= i < |connected| - 1 && SamePair(connected[i], connected[|connected| - 1]) ==>
               IsVolatile(connected[|connected| - 1].uid)
    ensures LaterTwinsAreVolatile(connected)
  {
    forall i, j | 0 <= i < j < |connected| && SamePair(connected[i], connected[j])
      ensures IsVolatile(connected[j].uid)
    {
      if j < |connected| - 1 {
        assert connected[..|connected| - 1][i] == connected[i] && connected[..|connected| - 1][j] == connected[j];
      }
    }
  }

  /** For every database, no connected pad is lost exactly when later twins in the snapshot are volatile. */
  lemma CompleteIffLaterTwinsAreVolatile(connected: seq<Pad>)
    requires DistinctUids(connected)
    ensures (forall rows :: DistinctUids(rows) ==> Complete(rows, connected)) <==> LaterTwinsAreVolatile(connected)
  {
    assert connected[..|connected|] == connected;
    if LaterTwinsAreVolatile(connected) {
      forall rows | DistinctUids(rows)
        ensures Complete(rows, connected)
      {
        RetainedIsFaithful(rows, connected);
        AdmittedPadsStay(Retained(rows, connected), connected, |connected|);
      }
    } else {
      RowsFromNothing(connected);
      TooFewRows(connected);
    }
  }

  lemma TooFewRows(connected: seq<Pad>)
    requires DistinctUids(connected) && |AdmitAll([], connected)| < |connected|
    ensures !Complete([], connected)
  {
    var rows := Reconciled([], connected);
    AdmitAllKeepsDistinct([], connected);
    DistinctRowsCount(rows);
    DistinctRowsCount(connected);
    if Uids(connected) <= Uids(rows) {
      SubsetSize(Uids(connected), Uids(rows));
    }
    var uid :| uid in Uids(connected) && uid !in Uids(rows);
    var j :| 0 <= j < |connected| && connected[j].uid == uid;
    assert !Knows(rows, connected[j].uid);
  }

  lemma {:induction false} NoArrivalNoAdmission(rows: seq<Pad>, connected: seq<Pad>)
    requires !PadsArrive(rows, connected)
    ensures AdmitAll(rows, connected) == rows
  {
    if connected != [] {
      NoArrivalNoAdmission(rows, connected[..|connected| - 1]);
    }
  }

  /** The caller may skip saving on `false`; and when no pad is lost, `true` means the database is different. */
  lemma ChangedMeansDifferent(rows: seq<Pad>, connected: seq<Pad>)
    ensures !Changes(rows, connected) ==> Reconciled(rows, connected) == rows
    ensures DistinctUids(rows) && DistinctUids(connected) && Complete(rows, connected) ==>
              (Changes(rows, connected) <==> Reconciled(rows, connected) != rows)
  {
    if !Changes(rows, connected) {
      RetainNothingNew(rows, connected);
      NoArrivalNoAdmission(rows, connected);
    }
    if DistinctUids(rows) && DistinctUids(connected) && Complete(rows, connected) {
      IdempotentIffComplete(rows, connected);
    }
  }

  /** Two stable twins, both connected: the later takes the earlier one's row. */
  lemma TwinTakesTheRow(a: Pad, b: Pad)
    requires a.uid == "a" && b.uid == "b" && SamePair(a, b)
    ensures !LaterTwinsAreVolatile([a, b])
    ensures |Reconciled([], [a, b])| == 1 && Reconciled([], [a, b])[0].uid == "b"
    ensures Reconciled([], [a, b])[0].status == Connected
  {
    assert [a, b][..1] == [a] && [a][..0] == [] && [a, b][0] == a && [a, b][1] == b;
    var first := a.(status := Connected);
    assert AdmitAll([], [a]) == [first];
    assert FindAdoptable([first], b) == Some(0);
  }
}
