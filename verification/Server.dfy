/**
 The shared server state behind the protocol: the registry's pending ids and the session counter,
 updated in place by handlers and tasks. `run` records the steps taken, in order.
 */
module Server {
  import opened Admission

  class AppState {
    const max: nat
    var pending: set<string>
    var active: nat
    ghost var run: seq<Action>

    ghost function Now(): State
      reads this
    {
      Exec(max, run)
    }

    /** The stored fields are those of the protocol state after `run`. */
    ghost predicate Valid()
      reads this
    {
      pending == Now().pending && active == Now().active
    }

    /** The overshoot bound, on the stored counter. */
    ghost predicate WithinBound()
      reads this
    {
      active + |In(Now().conns, Admitted)| <= max + Overshoot(Now().peak)
    }

    constructor (max: nat)
      ensures Valid() && this.max == max && run == [] && pending == {} && active == 0
    {
      this.max := max;
      pending, active, run := {}, 0, [];
    }

    method Issue(id: string)
      requires Valid()
      modifies this
      ensures Valid() && WithinBound() && run == old(run) + [Admission.Issue(id)]
      ensures pending == old(pending) + {id} && active == old(active)
    {
      ExecStep(max, run, Admission.Issue(id));
      CapacityBound(max, run + [Admission.Issue(id)]);
      pending := pending + {id};
      run := run + [Admission.Issue(id)];
    }

    /** The expiry task of token `task`: it runs once, no earlier than its deadline. */
    method Expire(ghost task: nat, id: string)
      requires Valid() && Outstanding(Now(), task, id) && Now().now >= Now().tokens[task].at + EXPIRY
      modifies this
      ensures Valid() && WithinBound() && run == old(run) + [Admission.Expire(task)]
      ensures pending == old(pending) - {id} && active == old(active)
    {
      ExecStep(max, run, Admission.Expire(task));
      CapacityBound(max, run + [Admission.Expire(task)]);
      pending := pending - {id};
      run := run + [Admission.Expire(task)];
    }

    /** First half of `connect`; a missing id arrives as the empty string. */
    method Claim(c: nat, id: string) returns (phase: Phase)
      requires Valid() && c !in Now().conns
      modifies this
      ensures Valid() && WithinBound() && run == old(run) + [Admission.Claim(c, id)] && At(Now(), c, phase)
      ensures phase == if id == "" then BadRequest else if id in old(pending) then Claimed else Forbidden
      ensures pending == old(pending) - (if id == "" then {} else {id}) && active == old(active)
    {
      ExecStep(max, run, Admission.Claim(c, id));
      CapacityBound(max, run + [Admission.Claim(c, id)]);
      if id == "" {
        phase := BadRequest;
      } else {
        phase := if id in pending then Claimed else Forbidden;
        pending := pending - {id};
      }
      run := run + [Admission.Claim(c, id)];
    }

    /** Second half of `connect`: reads the counter, and does not raise it. */
    method CheckCapacity(c: nat) returns (phase: Phase)
      requires Valid() && At(Now(), c, Claimed)
      modifies this
      ensures Valid() && WithinBound() && run == old(run) + [Admission.CheckCapacity(c)] && At(Now(), c, phase)
      ensures phase == if old(active) >= max then AtCapacity else Admitted
      ensures pending == old(pending) && active == old(active)
    {
      ExecStep(max, run, Admission.CheckCapacity(c));
      CapacityBound(max, run + [Admission.CheckCapacity(c)]);
      phase := if active >= max then AtCapacity else Admitted;
      run := run + [Admission.CheckCapacity(c)];
    }

    method StartSession(c: nat)
      requires Valid() && At(Now(), c, Admitted)
      modifies this
      ensures Valid() && WithinBound() && run == old(run) + [Admission.StartSession(c)] && At(Now(), c, Running)
      ensures pending == old(pending) && active == old(active) + 1
    {
      ExecStep(max, run, Admission.StartSession(c));
      CapacityBound(max, run + [Admission.StartSession(c)]);
      active := active + 1;
      run := run + [Admission.StartSession(c)];
    }

    /** The counter is never decremented below zero: a running session is counted in it. */
    method EndSession(c: nat)
      requires Valid() && At(Now(), c, Running)
      modifies this
      ensures Valid() && WithinBound() && run == old(run) + [Admission.EndSession(c)] && At(Now(), c, Finished)
      ensures pending == old(pending) && active == old(active) - 1
    {
      ExecStep(max, run, Admission.EndSession(c));
      CapacityBound(max, run);
      CapacityBound(max, run + [Admission.EndSession(c)]);
      assert c in In(Now().conns, Running);
      active := active - 1;
      run := run + [Admission.EndSession(c)];
    }
  }
}
