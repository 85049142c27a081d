/** The import program itself, run against a service that may fail, lose replies or
    apply part of a request, in a process that may die at any of its effects.

    Whatever the schedule of failures, the pair of state file and table is
    `Consistent` before and after every single effect, and that is all a later run
    needs. */
module AttuImportRun {
  import opened Numbers
  import opened Common
  import opened Faults
  import opened Tables
  import opened AttuImport

  datatype Outcome = Going | Died | Raised | Rejected | Suspended | Verified

  class World {
    const binding: string
    const batches: seq<seq<Row>>
    ghost const layout: Layout
    var table: Table
    var saved: Option<State>
    var faults: seq<Fault>

    ghost predicate Consistent()
      reads this
    {
      && LaidOut(layout) && layout.batches == batches && |layout.rows| == Total()
      && match saved
         case None => table == map[]
         case Some(s) => Sound(binding, layout, s, table)
    }

    ghost predicate Holds(s: State)
      reads this
    {
      Consistent() && saved.Some? && Sound(binding, layout, s, table)
    }

    constructor (binding: string, batches: seq<seq<Row>>, faults: seq<Fault>)
      requires DistinctIds(Flatten(batches))
      ensures Consistent() && saved == None && table == map[]
      ensures this.batches == batches && this.binding == binding && this.faults == faults
      ensures layout.rows == Flatten(batches)
    {
      this.binding, this.batches, this.faults := binding, batches, faults;
      layout := LayoutOf(batches);
      table, saved := map[], None;
    }

    /** The report's row count. */
    function Total(): nat {
      |Flatten(batches)|
    }

    method NextFault() returns (fault: Fault)
      modifies this`faults
      ensures old(faults) == [] ==> fault.reply == Fine && faults == []
    {
      if faults == [] { return Fault(Fine, {}, true); }
      fault, faults := faults[0], faults[1..];
    }

    /** A request that only reads. */
    method Call() returns (reply: Reply)
      modifies this`faults
      ensures old(faults) == [] ==> reply == Fine && faults == []
    {
      var fault := NextFault();
      reply := fault.reply;
    }

    /** Replaces the state file, or leaves it as it was. */
    method Save(s: State) returns (reply: Reply)
      requires Consistent() && Sound(binding, layout, s, table)
      modifies this`faults, this`saved
      ensures Consistent() && (saved == Some(s) || saved == old(saved))
      ensures reply == Fine ==> saved == Some(s)
      ensures old(faults) == [] ==> reply == Fine && faults == []
    {
      var fault := NextFault();
      reply := fault.reply;
      if reply == Fine || (reply == Dead && fault.durable) { saved := Some(s); }
    }

    /** Sends the pending group; a failed request has applied an arbitrary part of it. */
    method Upsert(s: State) returns (reply: Reply)
      requires Holds(s) && saved == Some(s) && s.pending.Some? && !s.status.DataVerified?
      modifies this`faults, this`table
      ensures Holds(s)
      ensures reply == Fine ==> GroupDone(layout, s, table)
      ensures old(faults) == [] ==> reply == Fine && faults == []
    {
      var fault := NextFault();
      reply := fault.reply;
      var group := GroupAt(batches[s.fileIndex], s.rowOffset);
      var applied := if reply == Fine then IdSet(group) else fault.applied;
      UpsertSound(binding, layout, s, table, group, applied);
      table := Upserted(table, group, applied);
    }

    /** Records the next group as pending, after checking that nothing of it is there. */
    method RecordPending(start: State) returns (outcome: Outcome, state: State)
      requires Holds(start) && saved == Some(start) && !start.status.DataVerified? && start.pending.None?
      requires start.fileIndex < |batches| && start.rowOffset < |batches[start.fileIndex]|
      modifies this`faults, this`saved
      ensures Holds(state) && outcome in {Going, Died, Raised}
      ensures !state.status.DataVerified?
      ensures outcome == Going ==>
                var group := GroupAt(batches[start.fileIndex], start.rowOffset);
                && saved == Some(state)
                && state == start.(pending := Some(PendingIdentity(start.fileIndex, start.rowOffset, group)))
      ensures old(faults) == [] ==> outcome == Going && faults == []
    {
      state := start;
      var group := GroupAt(batches[state.fileIndex], state.rowOffset);
      BeforeGroupSound(binding, layout, state, table);
      var reply := Call();
      if reply != Fine { return Stopped(reply), state; }
      if Existing(table, group) != [] { return Rejected, state; }
      reply := Call();
      if reply != Fine { return Stopped(reply), state; }
      if !CountValid(state, |table|, 0) { return Rejected, state; }
      RecordPendingSound(binding, layout, state, table);
      state := state.(pending := Some(PendingIdentity(state.fileIndex, state.rowOffset, group)));
      reply := Save(state);
      outcome := if reply == Fine then Going else Stopped(reply);
    }

    /** One pass over a group: record it as pending, send it, acknowledge it. */
    method ImportGroup(start: State) returns (outcome: Outcome, state: State)
      requires Holds(start) && saved == Some(start) && !start.status.DataVerified?
      requires start.fileIndex < |batches| && start.rowOffset < |batches[start.fileIndex]|
      modifies this`faults, this`table, this`saved
      ensures Holds(state) && !state.status.DataVerified?
      ensures outcome in {Going, Died, Raised}
      ensures outcome == Going ==>
                && saved == Some(state) && state.pending == None && state.fileIndex == start.fileIndex
                && state.rowOffset == Min(start.rowOffset + REQUEST_ROWS, |batches[start.fileIndex]|)
                && state.requests == start.requests + 1
      ensures old(faults) == [] ==> outcome == Going && faults == []
    {
      state := start;
      var group := GroupAt(batches[state.fileIndex], state.rowOffset);
      if state.pending.None? {
        outcome, state := RecordPending(state);
        if outcome != Going { return; }
      } else if state.pending.value != PendingIdentity(state.fileIndex, state.rowOffset, group) {
        return Rejected, state;
      }
      outcome := SendPending(state);
      if outcome != Going { return; }
      AcknowledgeSound(binding, layout, state, table);
      state := Acknowledge(state, |group|);
      var reply := Save(state);
      if reply != Fine { outcome := Stopped(reply); }
    }

    /** Up to three attempts; before each, the table may hold nothing but own, unchanged rows. */
    method SendPending(state: State) returns (outcome: Outcome)
      requires Holds(state) && saved == Some(state) && state.pending.Some? && !state.status.DataVerified?
      modifies this`faults, this`table
      ensures Holds(state) && saved == Some(state)
      ensures outcome in {Going, Died, Raised}
      ensures outcome == Going ==> GroupDone(layout, state, table)
      ensures old(faults) == [] ==> outcome == Going && faults == []
    {
      var group := GroupAt(batches[state.fileIndex], state.rowOffset);
      var attempt := 0;
      while true
        invariant Holds(state) && saved == Some(state) && attempt < ATTEMPTS
        invariant old(faults) == [] ==> faults == []
        decreases ATTEMPTS - attempt
      {
        ResumeNeverRejects(binding, layout, state, table);
        var reply := Call();
        if reply == Fine && !ExistingValid(group, Existing(table, group)) { return Rejected; }
        if reply == Fine { reply := Call(); }
        if reply == Fine && !CountValid(state, |table|, |Existing(table, group)|) { return Rejected; }
        if reply == Fine { reply := Upsert(state); }
        if reply == Fine { return Going; }
        if reply != Retryable || attempt == ATTEMPTS - 1 { return Stopped(reply); }
        attempt := attempt + 1;
      }
    }

    /** Reads the first and the last of some written rows of the current file back. */
    method VerifySamples(state: State, from: nat, to: nat) returns (outcome: Outcome)
      requires Holds(state) && state.fileIndex < |batches| && from <= to <= state.rowOffset
      modifies this`faults
      ensures outcome in {Going, Died, Raised}
      ensures old(faults) == [] ==> outcome == Going && faults == []
    {
      var reply := Call();
      if reply != Fine { return Stopped(reply); }
      SamplesSound(binding, layout, state, table, from, to);
      outcome := if SamplesValid(table, batches[state.fileIndex][from..to]) then Going else Rejected;
    }

    /** The requests that are left when the cursor is where the state says. */
    function Left(s: State): nat {
      RequestsLeft(batches, s.fileIndex, s.rowOffset)
    }

    /** Some requests have been made and counted, and as many fewer are left. */
    predicate Made(before: State, after: State, requests: int) {
      after.requests == before.requests + requests && Left(after) == Left(before) - requests
    }

    /** The groups of the current file, from the cursor on. */
    method ImportGroups(start: State, requestsBefore: nat, maxRequests: nat)
      returns (outcome: Outcome, state: State, requests: nat)
      requires Holds(start) && saved == Some(start) && !start.status.DataVerified? && start.fileIndex < |batches|
      requires maxRequests == 0 || requestsBefore < maxRequests
      modifies this`faults, this`table, this`saved
      ensures Holds(state) && !state.status.DataVerified?
      ensures outcome in {Going, Died, Raised, Suspended}
      ensures outcome == Going ==>
                && saved == Some(state) && state.pending == None && state.fileIndex == start.fileIndex
                && state.rowOffset == |batches[start.fileIndex]|
                && (maxRequests == 0 || requests < maxRequests)
      ensures outcome == Suspended ==>
                saved == Some(state) && state.status == Paused && requests == maxRequests > requestsBefore
      ensures outcome in {Going, Suspended} ==> Made(start, state, requests - requestsBefore)
      ensures old(faults) == [] ==> outcome in {Going, Suspended} && faults == []
    {
      state, requests := start, requestsBefore;
      var rows := batches[start.fileIndex];
      var rowOffset := state.rowOffset;
      while rowOffset < |rows|
        invariant Holds(state) && saved == Some(state) && !state.status.DataVerified?
        invariant state.fileIndex == start.fileIndex && state.rowOffset == Min(rowOffset, |rows|)
        invariant rowOffset >= |rows| ==> state.pending == None
        invariant requests >= requestsBefore && (maxRequests == 0 || requests < maxRequests)
        invariant Made(start, state, requests - requestsBefore)
        invariant old(faults) == [] ==> faults == []
      {
        OneRequestLess(batches, state.fileIndex, rowOffset, Min(rowOffset + REQUEST_ROWS, |rows|));
        outcome, state := ImportGroup(state);
        if outcome != Going { return; }
        requests := requests + 1;
        if requests == 1 {
          outcome := VerifySamples(state, rowOffset, state.rowOffset);
          if outcome != Going { return; }
        }
        if maxRequests > 0 && requests >= maxRequests {
          var reply;
          reply, state := SaveStatus(state, Paused);
          return if reply == Fine then Suspended else Stopped(reply), state, requests;
        }
        rowOffset := rowOffset + REQUEST_ROWS;
      }
      outcome := Going;
    }

    /** One file: its groups, then its first and last row read back, then the next file. */
    method ImportFile(start: State, requestsBefore: nat, maxRequests: nat)
      returns (outcome: Outcome, state: State, requests: nat)
      requires Holds(start) && saved == Some(start) && !start.status.DataVerified? && start.fileIndex < |batches|
      requires maxRequests == 0 || requestsBefore < maxRequests
      modifies this`faults, this`table, this`saved
      ensures Holds(state) && !state.status.DataVerified?
      ensures outcome in {Going, Died, Raised, Suspended}
      ensures outcome == Going ==>
                && saved == Some(state) && state.pending == None && state.fileIndex == start.fileIndex + 1
                && state.rowOffset == 0 && (maxRequests == 0 || requests < maxRequests)
      ensures outcome == Suspended ==>
                saved == Some(state) && state.status == Paused && requests == maxRequests > requestsBefore
      ensures outcome in {Going, Suspended} ==> Made(start, state, requests - requestsBefore)
      ensures old(faults) == [] ==> outcome in {Going, Suspended} && faults == []
    {
      state, requests := start, requestsBefore;
      var reply := Call();
      if reply != Fine { return Stopped(reply), state, requests; }
      outcome, state, requests := ImportGroups(state, requests, maxRequests);
      if outcome != Going { return; }
      outcome := VerifySamples(state, 0, |batches[state.fileIndex]|);
      if outcome != Going { return; }
      NextFileSound(binding, layout, state, table);
      state := NextFile(state);
      reply := Save(state);
      outcome := if reply == Fine then Going else Stopped(reply);
    }

    /** The part of the program inside its `try`. */
    method ImportFiles(start: State, maxRequests: nat) returns (outcome: Outcome, state: State)
      requires Holds(start) && saved == Some(start) && !start.status.DataVerified?
      modifies this`faults, this`table, this`saved
      ensures Holds(state)
      ensures outcome in {Died, Raised, Suspended, Verified}
      ensures outcome == Suspended ==>
                && saved == Some(state) && state.status == Paused
                && 0 < maxRequests <= Left(start) && Made(start, state, maxRequests)
      ensures outcome == Verified ==>
                && saved == Some(state) && state.status == DataVerified && Exactly(table, layout.rows)
                && (maxRequests == 0 || Left(start) < maxRequests) && Made(start, state, Left(start))
      ensures old(faults) == [] ==> outcome in {Suspended, Verified}
    {
      state := start;
      var requests: nat := 0;
      var fileIndex := state.fileIndex;
      while fileIndex < |batches|
        invariant Holds(state) && saved == Some(state) && !state.status.DataVerified?
        invariant state.fileIndex == fileIndex
        invariant Made(start, state, requests) && (maxRequests == 0 || requests < maxRequests)
        invariant old(faults) == [] ==> faults == []
      {
        outcome, state, requests := ImportFile(state, requests, maxRequests);
        if outcome != Going { return; }
        fileIndex := fileIndex + 1;
      }
      EndIsComplete(binding, layout, state, table);
      var reply := Call();
      if reply != Fine { return Stopped(reply), state; }
      if !(|table| == state.acknowledged == Total()) { return Rejected, state; }
      state := state.(status := DataVerified);
      reply := Save(state);
      outcome := if reply == Fine then Verified else Stopped(reply);
    }

    method SaveStatus(start: State, status: Status) returns (reply: Reply, state: State)
      requires Holds(start) && !status.DataVerified?
      modifies this`faults, this`saved
      ensures Holds(state) && state == start.(status := status)
      ensures reply == Fine ==> saved == Some(state)
      ensures old(faults) == [] ==> reply == Fine && faults == []
    {
      StatusSound(binding, layout, start, table, status);
      state := start.(status := status);
      reply := Save(state);
    }

    /** Resumes from the state file, or starts on an empty collection. */
    method Load() returns (outcome: Outcome, state: State)
      requires Consistent()
      modifies this`faults, this`saved
      ensures Consistent() && outcome in {Going, Died, Raised}
      ensures outcome == Going ==> Holds(state) && saved == Some(state) && Left(state) == LeftIn(old(saved))
      ensures old(faults) == [] ==> outcome == Going && faults == []
    {
      state := State(binding, Created, 0, 0, 0, 0, 0, None);
      var reply := Call();
      if reply != Fine { return Stopped(reply), state; }
      if saved.Some? {
        state := saved.value;
        ResumeNeverRejects(binding, layout, state, table);
        outcome := if ResumeAccepted(binding, batches, state, table) then Going else Rejected;
      } else {
        if |table| != 0 { return Rejected, state; }
        InitialSound(binding, layout);
        reply := Save(state);
        outcome := if reply == Fine then Going else Stopped(reply);
      }
    }

    /** The requests that are left by the state file. */
    function LeftIn(file: Option<State>): nat {
      if file.None? then RequestsLeft(batches, 0, 0) else Left(file.value)
    }

    ghost predicate SaysVerified()
      reads this
    {
      saved.Some? && saved.value.status == DataVerified
    }

    lemma WhatIsSaidIsSo()
      requires Consistent()
      ensures SaysVerified() ==> Exactly(table, layout.rows)
    {
      if SaysVerified() { VerifiedIsExact(binding, layout, saved.value, table); }
    }

    /** One start of the program on whatever an earlier run left, `maxRequests` being 0 for no limit.

        It never rejects that state, it ends as verified only with the table equal to the source, and without
        failures it does end so unless the limit is reached: it pauses if and only if as many requests as it allows
        were left, and has then made just these. Even when the process dies behind its last effect, a state file
        that says verified is right. */
    method Run(maxRequests: nat) returns (outcome: Outcome)
      requires Consistent()
      modifies this`faults, this`table, this`saved
      ensures Consistent()
      ensures SaysVerified() ==> Exactly(table, layout.rows)
      ensures outcome in {Died, Raised, Suspended, Verified}
      ensures outcome == Verified ==> SaysVerified()
      ensures outcome == Suspended ==>
                && 0 < maxRequests <= LeftIn(old(saved)) && LeftIn(saved) == LeftIn(old(saved)) - maxRequests
                && saved.Some? && saved.value.status == Paused
      ensures outcome == Verified ==> maxRequests == 0 || LeftIn(old(saved)) < maxRequests
      ensures old(faults) == [] ==>
                outcome == if 0 < maxRequests <= LeftIn(old(saved)) then Suspended else Verified
    {
      outcome := Start(maxRequests);
      WhatIsSaidIsSo();
    }

    method Start(maxRequests: nat) returns (outcome: Outcome)
      requires Consistent()
      modifies this`faults, this`table, this`saved
      ensures Consistent()
      ensures outcome in {Died, Raised, Suspended, Verified}
      ensures outcome == Verified ==> SaysVerified()
      ensures outcome == Suspended ==>
                && 0 < maxRequests <= LeftIn(old(saved)) && LeftIn(saved) == LeftIn(old(saved)) - maxRequests
                && saved.Some? && saved.value.status == Paused
      ensures outcome == Verified ==> maxRequests == 0 || LeftIn(old(saved)) < maxRequests
      ensures old(faults) == [] ==>
                outcome == if 0 < maxRequests <= LeftIn(old(saved)) then Suspended else Verified
    {
      var reply := Call();
      if reply != Fine { return Stopped(reply); }
      var state;
      outcome, state := Load();
      if outcome != Going { return; }
      reply, state := SaveStatus(state, Running);
      if reply != Fine { return Stopped(reply); }
      outcome, state := ImportFiles(state, maxRequests);
      if outcome == Raised {
        reply, state := SaveStatus(state, Failed);
        if reply == Dead { outcome := Died; }
      }
    }

    /** Any number of starts, each stopped wherever the schedule says. */
    method Campaign(limits: seq<nat>) returns (outcomes: seq<Outcome>)
      requires Consistent()
      modifies this`faults, this`table, this`saved
      ensures Consistent() && |outcomes| == |limits| && Rejected !in outcomes
      ensures SaysVerified() ==> Exactly(table, layout.rows)
      ensures outcomes != [] && outcomes[|outcomes| - 1] == Verified ==> SaysVerified()
    {
      outcomes := [];
      for i := 0 to |limits|
        invariant Consistent() && |outcomes| == i && Rejected !in outcomes
        invariant i > 0 && outcomes[i - 1] == Verified ==> SaysVerified()
      {
        var outcome := Run(limits[i]);
        outcomes := outcomes + [outcome];
      }
      WhatIsSaidIsSo();
    }
  }

  /** A failed call either ends the process or raises. */
  function Stopped(reply: Reply): Outcome {
    if reply == Dead then Died else Raised
  }
}
