/** Run records and the bounded trail buffer (packages/server/src/store/RunRecords.ts). Runs interleave:
    every operation names its run, and what is stated of one run holds whatever the others do. */
module RunRecords {
  import opened Wrappers

  const TRAIL_BOUND: nat := 200
  const TRAIL_SWEEP_MS: nat := 24 * 60 * 60 * 1000

  type Line = string

  datatype TrailRow = TrailRow(runId: string, createdAt: int, line: Line)

  /** A written record; `dropped` is the number its truncation notice names, zero when it has none. */
  datatype Record = Record(runId: string, trail: seq<Line>, dropped: nat)

  // ---------------------------------------------------------------- the buffer table

  /** The lines of one run, oldest first. */
  function Lines(buffer: seq<TrailRow>, runId: string): (lines: seq<Line>)
    ensures |lines| <= |buffer|
  {
    if buffer == [] then []
    else
      var n := |buffer| - 1;
      if buffer[n].runId == runId then Lines(buffer[..n], runId) + [buffer[n].line] else Lines(buffer[..n], runId)
  }

  /** `DELETE FROM trail_buffer WHERE created_at < horizon`. */
  function Swept(buffer: seq<TrailRow>, horizon: int): seq<TrailRow> {
    if buffer == [] then []
    else
      var n := |buffer| - 1;
      if buffer[n].createdAt < horizon then Swept(buffer[..n], horizon) else Swept(buffer[..n], horizon) + [buffer[n]]
  }

  /** `DELETE FROM trail_buffer WHERE run_id = runId`. */
  function Without(buffer: seq<TrailRow>, runId: string): seq<TrailRow> {
    if buffer == [] then []
    else
      var n := |buffer| - 1;
      if buffer[n].runId == runId then Without(buffer[..n], runId) else Without(buffer[..n], runId) + [buffer[n]]
  }

  /** A line of the run is older than the horizon. */
  ghost predicate HasOld(buffer: seq<TrailRow>, runId: string, horizon: int) {
    exists row :: row in buffer && row.runId == runId && row.createdAt < horizon
  }

  lemma LinesSnoc(buffer: seq<TrailRow>, row: TrailRow, runId: string)
    ensures Lines(buffer + [row], runId) == if row.runId == runId then Lines(buffer, runId) + [row.line]
                                            else Lines(buffer, runId)
  {
  }

  /** The sweep costs a run lines exactly when it has old ones. */
  lemma {:induction false} SweepCosts(buffer: seq<TrailRow>, runId: string, horizon: int)
    ensures |Lines(Swept(buffer, horizon), runId)| <= |Lines(buffer, runId)|
    ensures HasOld(buffer, runId, horizon) <==> |Lines(Swept(buffer, horizon), runId)| < |Lines(buffer, runId)|
    ensures !HasOld(buffer, runId, horizon) ==> Lines(Swept(buffer, horizon), runId) == Lines(buffer, runId)
  {
    if buffer != [] {
      var n := |buffer| - 1;
      SweepCosts(buffer[..n], runId, horizon);
      if buffer[n].createdAt >= horizon { LinesSnoc(Swept(buffer[..n], horizon), buffer[n], runId); }
      assert buffer == buffer[..n] + [buffer[n]];
      assert HasOld(buffer, runId, horizon) <==>
        HasOld(buffer[..n], runId, horizon) || (buffer[n].runId == runId && buffer[n].createdAt < horizon);
    }
  }

  /** Taking one run's rows takes all of them and touches no other run. */
  lemma {:induction false} WithoutTakes(buffer: seq<TrailRow>, runId: string, other: string)
    ensures Lines(Without(buffer, runId), other) == if other == runId then [] else Lines(buffer, other)
  {
    if buffer != [] {
      var n := |buffer| - 1;
      WithoutTakes(buffer[..n], runId, other);
      if buffer[n].runId != runId { LinesSnoc(Without(buffer[..n], runId), buffer[n], other); }
    }
  }

  /** The rows that a record write leaves: those of other runs that are not older than the horizon. */
  lemma {:induction false} RowsLeft(buffer: seq<TrailRow>, runId: string, horizon: int)
    ensures forall row :: row in Without(Swept(buffer, horizon), runId) <==>
      row in buffer && row.runId != runId && row.createdAt >= horizon
  {
    RowsSwept(buffer, horizon);
    RowsWithout(Swept(buffer, horizon), runId);
  }

  lemma {:induction false} RowsSwept(buffer: seq<TrailRow>, horizon: int)
    ensures forall row :: row in Swept(buffer, horizon) <==> row in buffer && row.createdAt >= horizon
  {
    if buffer != [] {
      var n := |buffer| - 1;
      RowsSwept(buffer[..n], horizon);
      assert buffer == buffer[..n] + [buffer[n]];
    }
  }

  lemma {:induction false} RowsWithout(buffer: seq<TrailRow>, runId: string)
    ensures forall row :: row in Without(buffer, runId) <==> row in buffer && row.runId != runId
  {
    if buffer != [] {
      var n := |buffer| - 1;
      RowsWithout(buffer[..n], runId);
      assert buffer == buffer[..n] + [buffer[n]];
    }
  }

  // ---------------------------------------------------------------- the accounts of a run

  /** What happened to a run's lines since its last record: all that were appended, and how many of
      the buffered ones the sweep took. */
  datatype Account = Account(appended: seq<Line>, swept: nat)

  function AccountOf(accounts: map<string, Account>, runId: string): Account {
    if runId in accounts then accounts[runId] else Account([], 0)
  }

  function DroppedOf(dropped: map<string, nat>, runId: string): nat {
    if runId in dropped then dropped[runId] else 0
  }

  /** Every appended line is buffered, counted as dropped or swept; and a run that lost none to the
      sweep has exactly its first lines in the buffer, up to the bound. */
  ghost predicate Balanced(lines: seq<Line>, dropped: nat, a: Account) {
    && |lines| <= TRAIL_BOUND
    && |lines| + dropped + a.swept == |a.appended|
    && (a.swept == 0 ==> lines == a.appended[..Min(|a.appended|, TRAIL_BOUND)])
  }

  /** Appending keeps the balance, whether the line is buffered or counted. */
  lemma AppendBalances(lines: seq<Line>, dropped: nat, a: Account, line: Line)
    requires Balanced(lines, dropped, a)
    ensures var a' := Account(a.appended + [line], a.swept);
      if |lines| >= TRAIL_BOUND then Balanced(lines, dropped + 1, a') else Balanced(lines + [line], dropped, a')
  {
  }

  /** The accounts after a sweep, which is charged with what the buffer lost, without the run
      whose trail was taken. */
  function Settled(accounts: map<string, Account>, buffer: seq<TrailRow>, left: seq<TrailRow>,
                   runId: string): map<string, Account>
  {
    map r | r in accounts && r != runId ::
      Account(accounts[r].appended, Max(0, accounts[r].swept + |Lines(buffer, r)| - |Lines(left, r)|))
  }

  /** Writing a record keeps every run's balance, clears its own run, and costs another run lines
      only when the sweep found old ones. */
  lemma RecordBalances(buffer: seq<TrailRow>, dropped: map<string, nat>, accounts: map<string, Account>, runId: string,
                       horizon: int, r: string)
    requires Balanced(Lines(buffer, r), DroppedOf(dropped, r), AccountOf(accounts, r))
    ensures var left := Swept(buffer, horizon);
      var lines, account := Lines(Without(left, runId), r), AccountOf(Settled(accounts, buffer, left, runId), r);
      && Balanced(lines, DroppedOf(dropped - {runId}, r), account)
      && (r == runId ==> lines == [] && account == Account([], 0))
      && (r != runId && !HasOld(buffer, r, horizon) ==> lines == Lines(buffer, r) && account == AccountOf(accounts, r))
  {
    hide Lines, Swept, Without, HasOld;
    SweepCosts(buffer, r, horizon);
    WithoutTakes(Swept(buffer, horizon), runId, r);
  }

  /** What the record of a run says about its lines. */
  ghost predicate Accounts(record: Record, a: Account, intact: bool) {
    && |record.trail| <= TRAIL_BOUND && |record.trail| + record.dropped <= |a.appended|
    && (intact <==> |record.trail| + record.dropped == |a.appended|)
    && (intact ==>
          var kept := Min(|a.appended|, TRAIL_BOUND);
          record.trail == a.appended[..kept] && record.dropped == |a.appended| - kept)
  }

  lemma RecordAccounts(buffer: seq<TrailRow>, dropped: map<string, nat>, a: Account, runId: string, horizon: int)
    requires Balanced(Lines(buffer, runId), DroppedOf(dropped, runId), a)
    ensures Accounts(Record(runId, Lines(Swept(buffer, horizon), runId), DroppedOf(dropped, runId)), a,
                     a.swept == 0 && !HasOld(buffer, runId, horizon))
  {
    hide Lines, Swept, HasOld;
    SweepCosts(buffer, runId, horizon);
  }

  class Store {
    var trailBuffer: seq<TrailRow>
    var trailDropped: map<string, nat>
    var runRecords: map<string, Record>
    ghost var accounts: map<string, Account>

    ghost predicate Valid()
      reads this
    {
      forall r :: Balanced(Lines(trailBuffer, r), DroppedOf(trailDropped, r), AccountOf(accounts, r))
    }

    constructor ()
      ensures Valid() && trailBuffer == [] && runRecords == map[] && accounts == map[]
    {
      trailBuffer, trailDropped, runRecords, accounts := [], map[], map[], map[];
    }

    method AppendTrail(runId: string, line: Line, now: int)
      requires Valid()
      modifies this
      ensures Valid() && runRecords == old(runRecords)
      ensures accounts == old(accounts)[runId := Account(AccountOf(old(accounts), runId).appended + [line],
                                                         AccountOf(old(accounts), runId).swept)]
      ensures if |Lines(old(trailBuffer), runId)| >= TRAIL_BOUND
        then trailBuffer == old(trailBuffer) &&
        trailDropped == old(trailDropped)[runId := DroppedOf(old(trailDropped), runId) + 1]
        else trailBuffer == old(trailBuffer) + [TrailRow(runId, now, line)] && trailDropped == old(trailDropped)
    {
      hide Lines, Balanced;
      AppendBalances(Lines(trailBuffer, runId), DroppedOf(trailDropped, runId), AccountOf(accounts, runId), line);
      accounts := accounts[runId := Account(AccountOf(accounts, runId).appended + [line],
                                            AccountOf(accounts, runId).swept)];
      var buffered := |Lines(trailBuffer, runId)|;
      if buffered >= TRAIL_BOUND {
        trailDropped := trailDropped[runId := DroppedOf(trailDropped, runId) + 1];
        return;
      }
      forall r
        ensures Lines(trailBuffer + [TrailRow(runId, now, line)], r) ==
          if r == runId then Lines(trailBuffer, r) + [line] else Lines(trailBuffer, r)
      {
        LinesSnoc(trailBuffer, TrailRow(runId, now, line), r);
      }
      trailBuffer := trailBuffer + [TrailRow(runId, now, line)];
    }

    /** Read the buffered trail of one run, and take it and its drop count away. */
    method TakeTrail(runId: string) returns (trail: seq<Line>, dropped: nat)
      modifies `trailBuffer, `trailDropped
      ensures trail == Lines(old(trailBuffer), runId) && dropped == DroppedOf(old(trailDropped), runId)
      ensures trailBuffer == Without(old(trailBuffer), runId) && trailDropped == old(trailDropped) - {runId}
    {
      trail := Lines(trailBuffer, runId);
      dropped := DroppedOf(trailDropped, runId);
      trailBuffer := Without(trailBuffer, runId);
      trailDropped := trailDropped - {runId};
    }

    /** Sweep, take the trail, insert the record, in one transaction. A run that already has a record
        violates the primary key, which undoes everything.

        The record accounts for every line of its run: those it holds, those it says were dropped and
        those the sweep took. With no line of the run ever swept, it holds exactly the first lines up
        to the bound, in order, and the drop count is the rest. Nothing of the run stays behind. */
    method PutRecord(runId: string, now: int) returns (written: bool)
      requires Valid()
      modifies this
      ensures Valid()
      ensures written <==> runId !in old(runRecords)
      ensures !written ==>
        runRecords == old(runRecords) && trailBuffer == old(trailBuffer) && trailDropped == old(trailDropped) &&
        accounts == old(accounts)
      ensures written ==>
        && runId in runRecords && runRecords == old(runRecords)[runId := runRecords[runId]]
        && runRecords[runId].runId == runId
        && Accounts(runRecords[runId], AccountOf(old(accounts), runId),
                    AccountOf(old(accounts), runId).swept == 0 &&
                    !HasOld(old(trailBuffer), runId, now - TRAIL_SWEEP_MS))
        && Lines(trailBuffer, runId) == [] && runId !in trailDropped && AccountOf(accounts, runId) == Account([], 0)
      // of the other runs exactly the lines of more than a day ago go
      ensures written ==> forall row :: row in trailBuffer <==>
        row in old(trailBuffer) && row.runId != runId && row.createdAt >= now - 86400000
      ensures written ==> forall r :: r != runId && !HasOld(old(trailBuffer), r, now - TRAIL_SWEEP_MS) ==>
        (Lines(trailBuffer, r) == Lines(old(trailBuffer), r) &&
         DroppedOf(trailDropped, r) == DroppedOf(old(trailDropped), r)
         && AccountOf(accounts, r) == AccountOf(old(accounts), r))
    {
      hide Lines, Swept, Without, HasOld, Balanced, Settled, Accounts;
      var bufferBefore, droppedBefore := trailBuffer, trailDropped;
      var horizon := now - TRAIL_SWEEP_MS;
      RowsLeft(bufferBefore, runId, horizon);
      RecordAccounts(bufferBefore, droppedBefore, AccountOf(accounts, runId), runId, horizon);
      forall r {
        RecordBalances(bufferBefore, droppedBefore, accounts, runId, horizon, r);
      }
      trailBuffer := Swept(trailBuffer, horizon);
      accounts := Settled(accounts, bufferBefore, trailBuffer, runId);
      var trail, dropped := TakeTrail(runId);
      if runId in runRecords {
        trailBuffer, trailDropped, accounts := bufferBefore, droppedBefore, old(accounts);
        return false;
      }
      runRecords := runRecords[runId := Record(runId, trail, dropped)];
      return true;
    }
  }
}
