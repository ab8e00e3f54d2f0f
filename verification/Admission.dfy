/**
 The WebSocket admission protocol as a state machine: worker tokens are issued, expire and are
 claimed; a claimed connection passes or fails the capacity check, and only later, in a task of
 its own, starts to count. Every step is atomic and any interleaving is a run.
 */
module Admission {

  /** `EXPIRY`, in milliseconds. */
  const EXPIRY: nat := 5000

  datatype Phase =
    | BadRequest   // no worker id: 400
    | Forbidden    // id not pending: 403
    | Claimed      // token consumed, capacity not yet checked
    | AtCapacity   // 503; the token stays consumed
    | Admitted     // upgrade under way, not yet counted
    | Abandoned    // the upgrade never completed
    | Running      // between the increment and the decrement
    | Finished

  datatype Token = Token(id: string, at: nat)

  /**
   `tokens[k]` is the k-th issued token and k its expiry task; `fired` are the tasks that ran.
   `claims` counts the successful claims, `peak` the most upgrades ever under way at once.
   */
  datatype State = State(
    now: nat, tokens: seq<Token>, fired: set<nat>, pending: set<string>, claims: multiset<string>,
    conns: map<nat, Phase>, active: int, peak: nat)

  datatype Action =
    | Elapse(ms: nat)
    | Issue(id: string)
    | Expire(task: nat)
    | Claim(c: nat, id: string)
    | CheckCapacity(c: nat)
    | AbandonUpgrade(c: nat)
    | StartSession(c: nat)
    | EndSession(c: nat)

  const Init: State := State(0, [], {}, {}, multiset{}, map[], 0, 0)

  function In(conns: map<nat, Phase>, phase: Phase): set<nat> {
    set c | c in conns && conns[c] == phase
  }

  predicate At(s: State, c: nat, phase: Phase) {
    c in s.conns && s.conns[c] == phase
  }

  function Max(a: nat, b: nat): nat {
    if a >= b then a else b
  }

  function Move(s: State, c: nat, phase: Phase): State {
    var conns := s.conns[c := phase];
    s.(conns := conns, peak := Max(s.peak, |In(conns, Admitted)|))
  }

  /** One atomic step; an action that is not enabled changes nothing. */
  function Step(max: nat, s: State, a: Action): State {
    match a
    case Elapse(ms) => s.(now := s.now + ms)
    case Issue(id) => s.(tokens := s.tokens + [Token(id, s.now)], pending := s.pending + {id})
    case Expire(k) =>
      if k < |s.tokens| && k !in s.fired && s.now >= s.tokens[k].at + EXPIRY
      then s.(fired := s.fired + {k}, pending := s.pending - {s.tokens[k].id})
      else s
    case Claim(c, id) =>
      if c in s.conns then s
      else if id == "" then Move(s, c, BadRequest)
      else if id !in s.pending then Move(s, c, Forbidden)
      else Move(s, c, Claimed).(pending := s.pending - {id}, claims := s.claims + multiset{id})
    case CheckCapacity(c) =>
      if !At(s, c, Claimed) then s else Move(s, c, if s.active >= max then AtCapacity else Admitted)
    case AbandonUpgrade(c) =>
      if !At(s, c, Admitted) then s else Move(s, c, Abandoned)
    case StartSession(c) =>
      if !At(s, c, Admitted) then s else Move(s, c, Running).(active := s.active + 1)
    case EndSession(c) =>
      if !At(s, c, Running) then s else Move(s, c, Finished).(active := s.active - 1)
  }

  /** The state after a run; every sequence of actions is a run. */
  function Exec(max: nat, run: seq<Action>): State {
    if run == [] then Init else Step(max, Exec(max, run[..|run| - 1]), run[|run| - 1])
  }

  lemma ExecStep(max: nat, run: seq<Action>, a: Action)
    ensures Exec(max, run + [a]) == Step(max, Exec(max, run), a)
  {
    assert (run + [a])[..|run|] == run;
  }

  // ----- capacity

  /** Connections that consumed a token. */
  function Through(conns: map<nat, Phase>): set<nat> {
    set c | c in conns && conns[c] != BadRequest && conns[c] != Forbidden
  }

  function Overshoot(peak: nat): nat {
    if peak == 0 then 0 else peak - 1
  }

  ghost predicate CapacityInv(max: nat, s: State) {
    && s.active == |In(s.conns, Running)|
    && |In(s.conns, Admitted)| <= s.peak
    && s.active + |In(s.conns, Admitted)| <= max + Overshoot(s.peak)
    && |Through(s.conns)| == |s.claims|
  }

  lemma EnterCount(conns: map<nat, Phase>, c: nat, phase: Phase)
    requires c !in conns || conns[c] != phase
    ensures |In(conns[c := phase], phase)| == |In(conns, phase)| + 1
  {
    var after := In(conns[c := phase], phase);
    assert c !in In(conns, phase);
    forall x ensures x in after <==> x in In(conns, phase) || x == c {}
    assert after == In(conns, phase) + {c};
  }

  lemma LeaveCount(conns: map<nat, Phase>, c: nat, phase: Phase, other: Phase)
    requires other != phase
    ensures |In(conns[c := phase], other)| == |In(conns, other)| - if c in conns && conns[c] == other then 1 else 0
  {
    var after := In(conns[c := phase], other);
    assert after == In(conns, other) - {c};
  }

  lemma ThroughEnters(conns: map<nat, Phase>, c: nat, phase: Phase)
    requires c !in conns && phase != BadRequest && phase != Forbidden
    ensures |Through(conns[c := phase])| == |Through(conns)| + 1
  {
    var after := Through(conns[c := phase]);
    assert c !in Through(conns);
    forall x ensures x in after <==> x in Through(conns) || x == c {}
    assert after == Through(conns) + {c};
  }

  lemma ThroughStays(conns: map<nat, Phase>, c: nat, phase: Phase)
    requires c in Through(conns) <==> phase != BadRequest && phase != Forbidden
    ensures Through(conns[c := phase]) == Through(conns)
  {
    forall x ensures x in Through(conns[c := phase]) <==> x in Through(conns) {}
  }

  lemma CapacityMove(s: State, c: nat, phase: Phase)
    requires c !in s.conns || s.conns[c] != phase
    requires c in s.conns ==> c in Through(s.conns) && phase != BadRequest && phase != Forbidden
    ensures var after := Move(s, c, phase).conns;
            && |In(after, Running)| == |In(s.conns, Running)|
                 + (if phase == Running then 1 else 0) - (if At(s, c, Running) then 1 else 0)
            && |In(after, Admitted)| == |In(s.conns, Admitted)|
                 + (if phase == Admitted then 1 else 0) - (if At(s, c, Admitted) then 1 else 0)
            && |Through(after)| == |Through(s.conns)|
                 + if c !in s.conns && phase != BadRequest && phase != Forbidden then 1 else 0
  {
    if phase == Running { EnterCount(s.conns, c, phase); } else { LeaveCount(s.conns, c, phase, Running); }
    if phase == Admitted { EnterCount(s.conns, c, phase); } else { LeaveCount(s.conns, c, phase, Admitted); }
    if c !in s.conns && phase != BadRequest && phase != Forbidden {
      ThroughEnters(s.conns, c, phase);
    } else {
      ThroughStays(s.conns, c, phase);
    }
  }

  lemma ClaimKeepsCapacity(max: nat, s: State, c: nat, id: string)
    requires CapacityInv(max, s)
    ensures CapacityInv(max, Step(max, s, Claim(c, id)))
  {
    hide In, Through;
    if c !in s.conns {
      CapacityMove(s, c, if id == "" then BadRequest else if id !in s.pending then Forbidden else Claimed);
    }
  }

  lemma CapacityStep(max: nat, s: State, a: Action)
    requires CapacityInv(max, s)
    ensures CapacityInv(max, Step(max, s, a))
  {
    hide In;
    match a
    case Elapse(_) =>
    case Issue(_) =>
    case Expire(_) =>
    case Claim(c, id) =>
      ClaimKeepsCapacity(max, s, c, id);
    case CheckCapacity(c) =>
      if At(s, c, Claimed) { CapacityMove(s, c, if s.active >= max then AtCapacity else Admitted); }
    case AbandonUpgrade(c) =>
      if At(s, c, Admitted) { CapacityMove(s, c, Abandoned); }
    case StartSession(c) =>
      if At(s, c, Admitted) { CapacityMove(s, c, Running); }
    case EndSession(c) =>
      if At(s, c, Running) { CapacityMove(s, c, Finished); }
  }

  /**
   In every reachable state: the counter is the number of sessions between increment and
   decrement, and sessions plus upgrades under way exceed the cap by at most the overlap.
   */
  lemma {:induction false} CapacityBound(max: nat, run: seq<Action>)
    ensures CapacityInv(max, Exec(max, run))
  {
    if run == [] {
      assert In(map[], Running) == {} && In(map[], Admitted) == {} && Through(map[]) == {};
    } else {
      CapacityBound(max, run[..|run| - 1]);
      CapacityStep(max, Exec(max, run[..|run| - 1]), run[|run| - 1]);
    }
  }

  /** While at most one upgrade was ever under way, the configured cap holds. */
  lemma CapHoldsWithoutOverlap(max: nat, run: seq<Action>)
    requires Exec(max, run).peak <= 1
    ensures 0 <= Exec(max, run).active <= max
  {
    CapacityBound(max, run);
  }

  /** The first `n` connections have come through, the last `waiting` of them not started. */
  ghost predicate Lined(conns: map<nat, Phase>, n: nat, waiting: nat) {
    && waiting <= n
    && (forall c: nat :: c in conns <==> c < n)
    && (forall c :: 0 <= c < n ==> conns[c] == if c < n - waiting then Running else Admitted)
  }

  /** Each of them on a fresh token. */
  ghost predicate Filled(s: State, n: nat, waiting: nat) {
    && Lined(s.conns, n, waiting)
    && s.active == n - waiting
    && s.pending == {}
    && |s.tokens| == n && forall k :: 0 <= k < n ==> s.tokens[k].id == Name(k)
  }

  function Name(n: nat): (id: string)
    ensures |id| == n + 1
  {
    seq(n + 1, _ => 'x')
  }

  function Interval(lo: nat, hi: nat): (r: set<nat>)
    requires lo <= hi
    ensures |r| == hi - lo && forall c :: c in r <==> lo <= c < hi
    decreases hi
  {
    if lo == hi then {} else Interval(lo, hi - 1) + {hi - 1}
  }

  lemma LinedAdmitted(conns: map<nat, Phase>, n: nat, waiting: nat)
    requires Lined(conns, n, waiting)
    ensures |In(conns, Admitted)| == waiting
  {
    assert In(conns, Admitted) == Interval(n - waiting, n);
  }

  lemma AdmitSteps(max: nat, s: State, n: nat, waiting: nat)
    requires Filled(s, n, waiting) && n - waiting < max && waiting <= s.peak
    ensures var t := Step(max, Step(max, Step(max, s, Issue(Name(n))), Claim(n, Name(n))), CheckCapacity(n));
            Filled(t, n + 1, waiting + 1) && t.peak == Max(s.peak, waiting + 1)
  {
    LinedAdmitted(s.conns, n, waiting);
    LeaveCount(s.conns, n, Claimed, Admitted);
    var s1 := Step(max, s, Issue(Name(n)));
    var s2 := Step(max, s1, Claim(n, Name(n)));
    assert s1.pending == {Name(n)};
    assert s2 == s1.(conns := s.conns[n := Claimed], pending := {}, claims := s.claims + multiset{Name(n)});
    var conns := s.conns[n := Admitted];
    assert s2.conns[n := Admitted] == conns;
    assert Lined(conns, n + 1, waiting + 1);
    LinedAdmitted(conns, n + 1, waiting + 1);
  }

  lemma AdmitOne(max: nat, run: seq<Action>, n: nat, waiting: nat) returns (next: seq<Action>)
    requires Filled(Exec(max, run), n, waiting) && n - waiting < max
    ensures Filled(Exec(max, next), n + 1, waiting + 1)
    ensures Exec(max, next).peak == Max(Exec(max, run).peak, waiting + 1)
  {
    var r1 := run + [Issue(Name(n))];
    var r2 := r1 + [Claim(n, Name(n))];
    next := r2 + [CheckCapacity(n)];
    ExecStep(max, run, Issue(Name(n)));
    ExecStep(max, r1, Claim(n, Name(n)));
    ExecStep(max, r2, CheckCapacity(n));
    CapacityBound(max, run);
    LinedAdmitted(Exec(max, run).conns, n, waiting);
    AdmitSteps(max, Exec(max, run), n, waiting);
  }

  lemma StartStep(max: nat, s: State, n: nat, waiting: nat)
    requires Filled(s, n, waiting) && 0 < waiting <= s.peak
    ensures var t := Step(max, s, StartSession(n - waiting));
            Filled(t, n, waiting - 1) && t.peak == s.peak
  {
    var conns := s.conns[n - waiting := Running];
    assert Lined(conns, n, waiting - 1);
    LinedAdmitted(conns, n, waiting - 1);
  }

  lemma StartOne(max: nat, run: seq<Action>, n: nat, waiting: nat) returns (next: seq<Action>)
    requires Filled(Exec(max, run), n, waiting) && waiting > 0
    ensures Filled(Exec(max, next), n, waiting - 1) && Exec(max, next).peak == Exec(max, run).peak
  {
    next := run + [StartSession(n - waiting)];
    ExecStep(max, run, StartSession(n - waiting));
    CapacityBound(max, run);
    LinedAdmitted(Exec(max, run).conns, n, waiting);
    StartStep(max, Exec(max, run), n, waiting);
  }

  lemma {:induction false} AdmitMany(max: nat, run: seq<Action>, n: nat, waiting: nat, more: nat)
      returns (next: seq<Action>)
    requires Filled(Exec(max, run), n, waiting) && n - waiting < max
    ensures Filled(Exec(max, next), n + more, waiting + more)
    ensures Exec(max, next).peak == if more == 0 then Exec(max, run).peak else Max(Exec(max, run).peak, waiting + more)
    decreases more
  {
    next := run;
    if more > 0 {
      next := AdmitMany(max, run, n, waiting, more - 1);
      next := AdmitOne(max, next, n + more - 1, waiting + more - 1);
    }
  }

  lemma {:induction false} StartMany(max: nat, run: seq<Action>, n: nat, waiting: nat) returns (next: seq<Action>)
    requires Filled(Exec(max, run), n, waiting)
    ensures Filled(Exec(max, next), n, 0) && Exec(max, next).peak == Exec(max, run).peak
    decreases waiting
  {
    next := run;
    if waiting > 0 {
      next := StartOne(max, run, n, waiting);
      next := StartMany(max, next, n, waiting - 1);
    }
  }

  lemma {:induction false} FillUpTo(max: nat, n: nat) returns (run: seq<Action>)
    requires n < max
    ensures Filled(Exec(max, run), n, 0) && Exec(max, run).peak <= 1
  {
    run := [];
    if n > 0 {
      run := FillUpTo(max, n - 1);
      run := AdmitOne(max, run, n - 1, 0);
      run := StartOne(max, run, n, 1);
    }
  }

  /** The bound is tight: every cap and every overlap reach it, with a fresh token each time. */
  lemma OvershootReached(max: nat, overlap: nat) returns (run: seq<Action>)
    requires max > 0 && overlap > 0
    ensures var s := Exec(max, run);
            && s.peak == overlap
            && s.active == |In(s.conns, Running)| == max + overlap - 1
            && forall j, k :: 0 <= j < k < |s.tokens| ==> s.tokens[j].id != s.tokens[k].id
  {
    run := FillUpTo(max, max - 1);
    run := AdmitMany(max, run, max - 1, 0, overlap);
    run := StartMany(max, run, max - 1 + overlap, overlap);
    CapacityBound(max, run);
  }

  ghost predicate NobodyIn(s: State) {
    s.active == 0 && forall c :: c in s.conns ==> s.conns[c] != Admitted && s.conns[c] != Running
  }

  lemma NobodyEnters(s: State, a: Action)
    requires NobodyIn(s)
    ensures NobodyIn(Step(0, s, a))
  {
    hide In;
  }

  /** With a cap of zero nobody is ever admitted. */
  lemma {:induction false} NobodyAtCapZero(run: seq<Action>)
    ensures NobodyIn(Exec(0, run))
  {
    if run != [] {
      NobodyAtCapZero(run[..|run| - 1]);
      NobodyEnters(Exec(0, run[..|run| - 1]), run[|run| - 1]);
    }
  }

  /** Runs with overlap at most `peak` keep the cap exactly if that means no overlap, or a cap of zero. */
  lemma CapIff(max: nat, peak: nat)
    ensures (forall run :: Exec(max, run).peak <= peak ==> Exec(max, run).active <= max) <==> peak <= 1 || max == 0
  {
    if max == 0 {
      forall run | Exec(max, run).peak <= peak ensures Exec(max, run).active <= max {
        NobodyAtCapZero(run);
      }
    } else if peak <= 1 {
      forall run | Exec(max, run).peak <= peak ensures Exec(max, run).active <= max {
        CapHoldsWithoutOverlap(max, run);
      }
    } else {
      var run := OvershootReached(max, 2);
      assert Exec(max, run).peak <= peak && Exec(max, run).active > max;
    }
  }

  // ----- tokens

  function Times(tokens: seq<Token>, id: string): nat {
    if tokens == [] then 0
    else Times(tokens[..|tokens| - 1], id) + if tokens[|tokens| - 1].id == id then 1 else 0
  }

  lemma TimesStep(tokens: seq<Token>, t: Token, id: string)
    ensures Times(tokens + [t], id) == Times(tokens, id) + if t.id == id then 1 else 0
  {
    assert (tokens + [t])[..|tokens|] == tokens;
  }

  lemma {:induction false} TimesAtLeast(tokens: seq<Token>, j: nat, k: nat)
    requires j <= k < |tokens| && tokens[j].id == tokens[k].id
    ensures Times(tokens, tokens[j].id) >= if j < k then 2 else 1
  {
    var front := tokens[..|tokens| - 1];
    if k < |front| {
      TimesAtLeast(front, j, k);
    } else if j < |front| {
      TimesAtLeast(front, j, j);
    }
  }

  function Held(s: State, id: string): nat {
    s.claims[id] + if id in s.pending then 1 else 0
  }

  ghost predicate Outstanding(s: State, k: nat, id: string) {
    k < |s.tokens| && k !in s.fired && s.tokens[k].id == id
  }

  ghost predicate HeldWithinIssues(s: State) {
    forall id :: Held(s, id) <= Times(s.tokens, id)
  }

  ghost predicate TasksRemain(s: State) {
    forall id :: id in s.pending ==> exists k :: Outstanding(s, k, id)
  }

  ghost predicate Timely(s: State) {
    && (forall k :: k in s.fired ==> k < |s.tokens| && s.tokens[k].at + 5000 <= s.now)
    && (forall k :: 0 <= k < |s.tokens| ==> s.tokens[k].at <= s.now)
  }

  ghost predicate TokenInv(s: State) {
    HeldWithinIssues(s) && |s.claims| + |s.pending| <= |s.tokens| && TasksRemain(s) && Timely(s)
  }

  /** The life of a token whose id was issued once: pending until claimed or expired. */
  ghost predicate FreshInv(s: State) {
    forall k :: 0 <= k < |s.tokens| && Times(s.tokens, s.tokens[k].id) == 1 ==>
      (s.tokens[k].id in s.pending <==> s.tokens[k].id !in s.claims && k !in s.fired)
  }

  lemma IssueTimes(s: State, id: string, x: string)
    ensures Times(Step(0, s, Issue(id)).tokens, x) == Times(s.tokens, x) + if x == id then 1 else 0
  {
    TimesStep(s.tokens, Token(id, s.now), x);
  }

  lemma IssueKeepsHeld(s: State, id: string)
    requires HeldWithinIssues(s)
    ensures HeldWithinIssues(Step(0, s, Issue(id)))
  {
    hide Times;
    var after := Step(0, s, Issue(id));
    forall x ensures Held(after, x) <= Times(after.tokens, x) {
      IssueTimes(s, id, x);
      assert Held(s, x) <= Times(s.tokens, x);
    }
  }

  lemma IssueKeepsTasks(s: State, id: string)
    requires TasksRemain(s) && Timely(s)
    ensures TasksRemain(Step(0, s, Issue(id)))
  {
    var after := Step(0, s, Issue(id));
    forall x | x in after.pending ensures exists k :: Outstanding(after, k, x) {
      if x == id {
        assert Outstanding(after, |s.tokens|, x);
      } else {
        var k :| Outstanding(s, k, x);
        assert Outstanding(after, k, x);
      }
    }
  }

  lemma IssueKeepsTokens(s: State, id: string)
    requires TokenInv(s)
    ensures TokenInv(Step(0, s, Issue(id)))
  {
    hide HeldWithinIssues, TasksRemain;
    IssueKeepsHeld(s, id);
    IssueKeepsTasks(s, id);
    assert |s.pending + {id}| <= |s.pending| + 1;
  }

  lemma IssueKeepsFresh(s: State, id: string)
    requires TokenInv(s) && FreshInv(s)
    ensures FreshInv(Step(0, s, Issue(id)))
  {
    var after := Step(0, s, Issue(id));
    var n := |s.tokens|;
    forall k | 0 <= k < n + 1 && Times(after.tokens, after.tokens[k].id) == 1
      ensures after.tokens[k].id in after.pending <==> after.tokens[k].id !in after.claims && k !in after.fired
    {
      IssueTimes(s, id, after.tokens[k].id);
      if k == n {
        assert Held(s, id) <= Times(s.tokens, id);
      } else {
        TimesAtLeast(s.tokens, k, k);
        assert s.tokens[k].id != id;
      }
    }
  }

  lemma ExpireKeepsTasks(s: State, k: nat)
    requires TasksRemain(s) && k < |s.tokens|
    ensures TasksRemain(s.(fired := s.fired + {k}, pending := s.pending - {s.tokens[k].id}))
  {
    var after := s.(fired := s.fired + {k}, pending := s.pending - {s.tokens[k].id});
    forall id | id in after.pending ensures exists j :: Outstanding(after, j, id) {
      var j :| Outstanding(s, j, id);
      assert Outstanding(after, j, id);
    }
  }

  lemma FewerHeld(s: State, t: State)
    requires HeldWithinIssues(s)
    requires t.tokens == s.tokens && t.claims == s.claims && t.pending <= s.pending
    ensures HeldWithinIssues(t) && |t.pending| <= |s.pending|
  {
    Subset(t.pending, s.pending);
    forall id ensures Held(t, id) <= Times(t.tokens, id) {
      assert Held(t, id) <= Held(s, id) <= Times(s.tokens, id);
    }
  }

  lemma ExpireKeepsTokens(s: State, k: nat)
    requires TokenInv(s)
    requires k < |s.tokens| && k !in s.fired && s.now >= s.tokens[k].at + EXPIRY
    ensures TokenInv(Step(0, s, Expire(k)))
  {
    hide HeldWithinIssues, TasksRemain;
    ExpireKeepsTasks(s, k);
    FewerHeld(s, Step(0, s, Expire(k)));
  }

  lemma ExpireKeepsFresh(s: State, k: nat)
    requires TokenInv(s) && FreshInv(s)
    requires k < |s.tokens| && k !in s.fired && s.now >= s.tokens[k].at + EXPIRY
    ensures FreshInv(Step(0, s, Expire(k)))
  {
    forall j | 0 <= j < |s.tokens| && j != k && s.tokens[j].id == s.tokens[k].id
      ensures Times(s.tokens, s.tokens[j].id) != 1
    {
      TimesAtLeast(s.tokens, if j < k then j else k, if j < k then k else j);
    }
  }

  lemma Subset(a: set<string>, b: set<string>)
    requires a <= b
    ensures |a| <= |b|
  {
    assert b == a + (b - a);
  }

  lemma ClaimKeepsTokens(s: State, c: nat, id: string)
    requires TokenInv(s) && FreshInv(s) && c !in s.conns && id != "" && id in s.pending
    ensures TokenInv(Step(0, s, Claim(c, id))) && FreshInv(Step(0, s, Claim(c, id)))
  {
    var after := Step(0, s, Claim(c, id));
    forall x ensures Held(after, x) == Held(s, x) {}
    forall x | x in after.pending ensures exists j :: Outstanding(after, j, x) {
      var j :| Outstanding(s, j, x);
      assert Outstanding(after, j, x);
    }
  }

  lemma SameTokens(s: State, t: State)
    requires TokenInv(s) && FreshInv(s) && s.now <= t.now
    requires t.tokens == s.tokens && t.fired == s.fired && t.pending == s.pending && t.claims == s.claims
    ensures TokenInv(t) && FreshInv(t)
  {
    forall id ensures Held(t, id) == Held(s, id) {}
    forall id | id in t.pending ensures exists k :: Outstanding(t, k, id) {
      var k :| Outstanding(s, k, id);
      assert Outstanding(t, k, id);
    }
  }

  /**
   In every reachable state, whatever ids are drawn: an id is claimed or pending no more often
   than issued, all claims together with all pending ids fit the tokens issued, and each pending
   id still has an expiry task to come. An id drawn once is pending until claimed or expired.
   */
  lemma {:induction false} TokensAccounted(max: nat, run: seq<Action>)
    ensures TokenInv(Exec(max, run)) && FreshInv(Exec(max, run))
  {
    if run != [] {
      var s, a := Exec(max, run[..|run| - 1]), run[|run| - 1];
      TokensAccounted(max, run[..|run| - 1]);
      if a.Issue? {
        IssueKeepsTokens(s, a.id);
        IssueKeepsFresh(s, a.id);
      } else if a.Expire? && a.task < |s.tokens| && a.task !in s.fired && s.now >= s.tokens[a.task].at + EXPIRY {
        ExpireKeepsTokens(s, a.task);
        ExpireKeepsFresh(s, a.task);
      } else if a.Claim? && a.c !in s.conns && a.id != "" && a.id in s.pending {
        ClaimKeepsTokens(s, a.c, a.id);
      } else {
        SameTokens(s, Step(max, s, a));
      }
    }
  }

  /** For an id drawn once, a first claim within five seconds succeeds; after expiry none does. */
  lemma FreshTokenClaim(max: nat, run: seq<Action>, k: nat, c: nat)
    requires var s := Exec(max, run);
             k < |s.tokens| && Times(s.tokens, s.tokens[k].id) == 1 && s.tokens[k].id != "" && c !in s.conns
    ensures var s := Exec(max, run);
            var t := Exec(max, run + [Claim(c, s.tokens[k].id)]);
            && (s.tokens[k].id !in s.claims && s.now < s.tokens[k].at + 5000 ==> t.conns[c] == Claimed)
            && (k in s.fired || s.tokens[k].id in s.claims ==> t.conns[c] == Forbidden)
  {
    TokensAccounted(max, run);
    ExecStep(max, run, Claim(c, Exec(max, run).tokens[k].id));
  }

  /** Connections that ever got past the capacity check. */
  function EverAdmitted(conns: map<nat, Phase>): set<nat> {
    set c | c in conns && conns[c] in {Admitted, Abandoned, Running, Finished}
  }

  /** Nobody is admitted without a token of their own. */
  lemma AdmissionsWithinTokens(max: nat, run: seq<Action>)
    ensures |EverAdmitted(Exec(max, run).conns)| <= |Exec(max, run).tokens|
  {
    var s := Exec(max, run);
    CapacityBound(max, run);
    TokensAccounted(max, run);
    assert Through(s.conns) == EverAdmitted(s.conns) + (Through(s.conns) - EverAdmitted(s.conns));
  }

  /** Once every expiry task has run, nothing is pending. */
  lemma DrainedWhenAllFired(max: nat, run: seq<Action>)
    requires forall k :: 0 <= k < |Exec(max, run).tokens| ==> k in Exec(max, run).fired
    ensures Exec(max, run).pending == {}
  {
    TokensAccounted(max, run);
    var s := Exec(max, run);
    forall id ensures id !in s.pending {
      assert forall k :: !Outstanding(s, k, id);
    }
  }

  function ExpireFirst(n: nat): seq<Action> {
    if n == 0 then [] else ExpireFirst(n - 1) + [Expire(n - 1)]
  }

  /** Tokens and clock of `s` are those of `t`, and the first `n` expiry tasks of `t` have run. */
  ghost predicate FiredFirst(s: State, t: State, n: nat) {
    t.tokens == s.tokens && t.now == s.now && forall k :: 0 <= k < n ==> k in t.fired
  }

  lemma FireNext(max: nat, s: State, t: State, n: nat)
    requires 0 < n <= |s.tokens| && FiredFirst(s, t, n - 1) && s.now >= s.tokens[n - 1].at + EXPIRY
    ensures FiredFirst(s, Step(max, t, Expire(n - 1)), n)
  {
  }

  lemma ExpireFirstStep(max: nat, run: seq<Action>, n: nat)
    requires n > 0
    ensures Exec(max, run + ExpireFirst(n)) == Step(max, Exec(max, run + ExpireFirst(n - 1)), Expire(n - 1))
  {
    hide Exec, Step;
    var r := run + ExpireFirst(n - 1);
    assert run + ExpireFirst(n) == r + [Expire(n - 1)];
    ExecStep(max, r, Expire(n - 1));
  }

  lemma FireNone(max: nat, run: seq<Action>, s: State)
    requires s == Exec(max, run)
    ensures FiredFirst(s, Exec(max, run + ExpireFirst(0)), 0)
  {
    hide Exec;
    assert run + ExpireFirst(0) == run;
  }

  lemma {:induction false} ExpireFirstFires(max: nat, run: seq<Action>, s: State, n: nat)
    requires s == Exec(max, run) && n <= |s.tokens|
    requires forall k :: 0 <= k < n ==> s.now >= s.tokens[k].at + EXPIRY
    ensures FiredFirst(s, Exec(max, run + ExpireFirst(n)), n)
  {
    hide Exec, Step, FiredFirst, ExpireFirst;
    if n == 0 {
      FireNone(max, run, s);
    } else {
      ExpireFirstFires(max, run, s, n - 1);
      ExpireFirstStep(max, run, n);
      FireNext(max, s, Exec(max, run + ExpireFirst(n - 1)), n);
    }
  }

  /** From any reachable state, five seconds and the outstanding tasks empty the registry. */
  lemma RegistryDrains(max: nat, run: seq<Action>)
    ensures Exec(max, run + [Elapse(5000)] + ExpireFirst(|Exec(max, run).tokens|)).pending == {}
  {
    var s := Exec(max, run);
    TokensAccounted(max, run);
    ExecStep(max, run, Elapse(5000));
    ExpireFirstFires(max, run + [Elapse(5000)], Exec(max, run + [Elapse(5000)]), |s.tokens|);
    DrainedWhenAllFired(max, run + [Elapse(5000)] + ExpireFirst(|s.tokens|));
  }

  /** Freshness is needed: were an id drawn twice, the first expiry would remove the second token. */
  lemma ReissuedTokenDiesEarly(max: nat)
    ensures var s := Exec(max, [Issue("t"), Elapse(4999), Issue("t"), Elapse(1), Expire(0)]);
            && "t" !in s.pending && "t" !in s.claims
            && |s.tokens| == 2 && 1 !in s.fired && s.now == s.tokens[1].at + 1
  {
    assert Exec(max, []) == Init;
    hide Exec;
    var r1: seq<Action> := [Issue("t")];
    var r2 := r1 + [Elapse(4999)];
    var r3 := r2 + [Issue("t")];
    var r4 := r3 + [Elapse(1)];
    assert r1 == [] + [Issue("t")];
    ExecStep(max, [], Issue("t"));
    ExecStep(max, r1, Elapse(4999));
    ExecStep(max, r2, Issue("t"));
    ExecStep(max, r3, Elapse(1));
    ExecStep(max, r4, Expire(0));
    assert r4 + [Expire(0)] == [Issue("t"), Elapse(4999), Issue("t"), Elapse(1), Expire(0)];
  }
}
