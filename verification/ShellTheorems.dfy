/** When a run can fail. */
module ShellTheorems {
  import opened Options
  import opened ShellEval
  import opened ShellRoundTrip
  import opened ShellSyntax

  // ---------------------------------------------------------------- oracles

  /** The outcome depends only on exit codes asked for after more processes have been started. */
  lemma {:induction false} EvalAsksLater(plan: Plan, before: seq<Launch>, e: Exits, e': Exits)
    requires PlanIsRunnable(plan)
    requires forall ls, k :: |ls| > |before| ==> e(ls, k) == e'(ls, k)
    ensures Eval(plan, before, e) == Eval(plan, before, e')
    decreases plan
  {
    StartedGrows(before, plan.group);
    if plan.AndThen? || plan.OrElse? {
      EvalAsksLater(plan.rest, Started(before, plan.group), e, e');
    }
  }

  /** The exit codes of `later`, except that nothing started up to length n exits with anything but `first`. */
  function Overlay(first: int, n: nat, later: Exits): Exits {
    (ls: seq<Launch>, k: nat) => if |ls| <= n then first else later(ls, k)
  }

  // ---------------------------------------------------------------- failing runs

  ghost predicate CdsComplete(p: seq<Node>) {
    forall i :: 0 <= i < |p| && p[i].Chdir? ==> i < |p| - 1 && p[i].dir.Some?
  }

  predicate HasBroken(plan: Plan) {
    plan.Broken? || ((plan.AndThen? || plan.OrElse?) && HasBroken(plan.rest))
  }

  lemma {:induction false} BrokenIffCdIncomplete(p: seq<Node>, cwd: string, group: seq<Placed>)
    requires Runnable(p)
    ensures HasBroken(PlanOf(p, cwd, group)) <==> !CdsComplete(p)
    decreases |p|
  {
    if |p| <= 1 {
    } else {
      var tail := p[2..];
      assert forall i :: 2 <= i < |p| ==> p[i] == tail[i - 2];
      assert CdsComplete(p) <==> (p[0].Chdir? ==> p[0].dir.Some?) && CdsComplete(tail);
      if p[0].Chdir? {
        if p[0].dir.Some? {
          BrokenIffCdIncomplete(tail, JoinPath(cwd, p[0].dir.value), group);
        }
      } else {
        BrokenIffCdIncomplete(tail, cwd, if p[1].Pipe? then group + [Placed(p[0], cwd)] else []);
      }
    }
  }

  predicate HasUnfinished(plan: Plan) {
    plan.Unfinished? || ((plan.AndThen? || plan.OrElse?) && HasUnfinished(plan.rest))
  }

  /** Only a list that ends behind an operator leaves a group unfinished. */
  lemma {:induction false} UnfinishedIsEven(p: seq<Node>, cwd: string, group: seq<Placed>)
    requires Runnable(p) && |p| % 2 == 1
    ensures !HasUnfinished(PlanOf(p, cwd, group))
    decreases |p|
  {
    if |p| > 1 {
      if p[0].Chdir? {
        if p[0].dir.Some? {
          UnfinishedIsEven(p[2..], JoinPath(cwd, p[0].dir.value), group);
        }
      } else {
        UnfinishedIsEven(p[2..], cwd, if p[1].Pipe? then group + [Placed(p[0], cwd)] else []);
      }
    }
  }

  lemma {:induction false} UnbrokenNeverRaises(plan: Plan, before: seq<Launch>, exits: Exits)
    requires PlanIsRunnable(plan) && !HasBroken(plan)
    ensures !Eval(plan, before, exits).0.Raised?
    ensures !HasUnfinished(plan) ==> Eval(plan, before, exits).0.Exited?
    decreases plan
  {
    if plan.AndThen? || plan.OrElse? {
      UnbrokenNeverRaises(plan.rest, Started(before, plan.group), exits);
    }
  }

  /** Exit codes that lead a run to its incomplete cd. */
  lemma {:induction false} ReachBroken(plan: Plan, before: seq<Launch>) returns (exits: Exits)
    requires PlanIsRunnable(plan) && HasBroken(plan)
    ensures Eval(plan, before, exits).0.Raised?
    decreases plan
  {
    if plan.Broken? {
      exits := (ls, k) => 0;
    } else {
      var ls := Started(before, plan.group);
      var later := ReachBroken(plan.rest, ls);
      exits := Overlay(if plan.AndThen? then 0 else 1, |ls|, later);
      EvalAsksLater(plan.rest, ls, exits, later);
    }
  }

  /** Running what a parse has left raises for no behaviour of the processes exactly when every cd in it
      names a directory and has something behind it. */
  lemma NeverRaisesIffCdsComplete(p: seq<Node>)
    requires IsLeft(p)
    ensures CdsComplete(p) <==> forall exits :: !Meaning(p, exits).0.Raised?
  {
    LeftIsRunnable(p);
    PlanRuns(p, ".", []);
    var plan := PlanOf(p, ".", []);
    BrokenIffCdIncomplete(p, ".", []);
    if CdsComplete(p) {
      forall exits ensures !Meaning(p, exits).0.Raised? {
        UnbrokenNeverRaises(plan, [], exits);
      }
    } else {
      var exits := ReachBroken(plan, []);
      assert Meaning(p, exits).0.Raised?;
    }
  }

  /** An accepted pipeline moreover gives a status. */
  lemma AlwaysExitsIffCdsComplete(p: seq<Node>)
    requires WellFormed(p)
    ensures CdsComplete(p) <==> forall exits :: Meaning(p, exits).0.Exited?
  {
    LeftIsRunnable(p);
    PlanRuns(p, ".", []);
    var plan := PlanOf(p, ".", []);
    BrokenIffCdIncomplete(p, ".", []);
    WellFormedAlternates(p);
    UnfinishedIsEven(p, ".", []);
    if CdsComplete(p) {
      forall exits ensures Meaning(p, exits).0.Exited? {
        UnbrokenNeverRaises(plan, [], exits);
      }
    } else {
      var exits := ReachBroken(plan, []);
      assert !Meaning(p, exits).0.Exited?;
    }
  }
}
