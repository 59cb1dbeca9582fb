/** Every stored record stays one that the API itself stores, so that an update over any run keeps what
    its request leaves out. */
module InventorySettled {
  import opened Wrappers
  import opened Payload
  import opened InventoryState
  import opened InventoryRequests
  import opened Inventory
  import opened InventoryAnswers
  import opened InventoryRuns

  lemma NextKeepsSettled(st: State, record: Record, existingId: Option<string>)
    requires AllSettled(st) && Settled(record)
    ensures AllSettled(NextState(st, record, existingId))
  {
    hide Settled;
  }

  lemma MutationKeepsSettled(ctx: Context, st: State, resource: Resource, payload: Fields,
                             existingId: Option<string>, now: nat)
    requires AllSettled(st)
    ensures AllSettled(AfterMutation(ctx, st, resource, payload, existingId, now))
  {
    hide *;
    ProposedReads(ctx, st, resource, payload, existingId, now);
    MutationResult(ctx, st, resource, payload, existingId, now);
    var r := Proposed(ctx, st, resource, payload, existingId, now);
    if r.Some? {
      ReadsSettled(resource, payload, existingId, now, r.value);
      NextKeepsSettled(st, r.value, existingId);
    }
  }

  lemma StepKeepsSettled(ctx: Context, st: State, command: Command)
    requires AllSettled(st)
    ensures AllSettled(Step(ctx, st, command))
  {
    hide Settled, AfterMutation, StoredFields;
    match command {
      case Create(resource, payload, now) =>
        MutationKeepsSettled(ctx, st, resource, payload, None, now);
      case Update(resource, recordId, payload, now) =>
        var stored := StoredFields(st, resource, recordId);
        if stored.Some? {
          MutationKeepsSettled(ctx, st, resource, stored.value + payload, Some(recordId), now);
        }
      case Delete(resource, recordId) =>
    }
  }

  /** Over every run the stored records stay settled. */
  lemma {:induction false} RunKeepsSettled(ctx: Context, st: State, commands: seq<Command>)
    requires AllSettled(st)
    ensures AllSettled(Run(ctx, st, commands))
    decreases |commands|
  {
    hide AllSettled, Step;
    if commands != [] {
      StepKeepsSettled(ctx, st, commands[0]);
      RunKeepsSettled(ctx, Step(ctx, st, commands[0]), commands[1..]);
    }
  }

  /** So after any run, a record that an update may store keeps each field whose key the request leaves
      out. */
  lemma {:induction false} ReachedUpdateKeeps(ctx: Context, st: State, commands: seq<Command>, resource: Resource,
                                              id: string, payload: Fields, now: nat, record: Record)
    requires Safe(ctx, st) && AllSettled(st)
    requires StoredFields(Run(ctx, st, commands), resource, id).Some?
    requires Proposed(ctx, Run(ctx, st, commands), resource,
                      StoredFields(Run(ctx, st, commands), resource, id).value + payload, Some(id), now) == Some(record)
    ensures Keeps(Run(ctx, st, commands), payload, id, record)
  {
    var reached := Run(ctx, st, commands);
    RunKeepsSafe(ctx, st, commands);
    RunKeepsSettled(ctx, st, commands);
    assert UniqueIds(reached);
    hide *;
    ProposedReads(ctx, reached, resource, StoredFields(reached, resource, id).value + payload, Some(id), now);
    UpdateKeeps(reached, resource, id, payload, now, record);
  }
}
