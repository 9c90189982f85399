/**
 * The `autoScale` control loop of autoscaler.js (lines 78-134). Each iteration
 * polls `/status`; on failure it sleeps and continues; otherwise it decides, sends
 * at most one `/replicas` update whose result it ignores, and sleeps. The
 * infinite loop is run over a finite trace of what the network did, and what the
 * loop does to the outside world is collected as a sequence of effects.
 */
module ControlLoop {
  import opened Wrappers
  import opened Client
  import opened Scaling

  /** An observable step of the loop: a request sent, or a sleep of the polling interval. */
  datatype Effect = Send(req: Request) | Sleep(ms: int)

  /** The replica update (if any) that one iteration sends, given what its poll returned. */
  function UpdateOf(c: Config, poll: Fetch<Option<Status>>): (u: Option<int>)
    requires c.targetCpuUsage > 0.0
  {
    match GetStatus(poll)
    case None => None
    case Some(s) => Command(Decide(s, c.targetCpuUsage))
  }

  /** The effects of one iteration: the status request, at most one update, the sleep. */
  function Iteration(c: Config, poll: Fetch<Option<Status>>): seq<Effect>
    requires c.targetCpuUsage > 0.0
  {
    [Send(StatusRequest(c))]
      + (match UpdateOf(c, poll)
         case None => []
         case Some(n) => [Send(ReplicasRequest(c, n))])
      + [Sleep(c.pollingIntervalMs)]
  }

  /** The effects of the iterations driven by `polls`, in order. */
  function Run(c: Config, polls: seq<Fetch<Option<Status>>>): seq<Effect>
    requires c.targetCpuUsage > 0.0
    decreases |polls|
  {
    if polls == [] then [] else Run(c, polls[..|polls| - 1]) + Iteration(c, polls[|polls| - 1])
  }

  /**
   * `autoScale`, run for `|polls|` iterations. `polls[i]` is what the status
   * fetch of iteration `i` did and `replies[i]` what its replica update (if it
   * sends one) did. The effects are determined by the polls alone: the update
   * results are dropped, so they neither cause a retry nor change a later iteration.
   */
  method AutoScale(c: Config, polls: seq<Fetch<Option<Status>>>, replies: seq<Fetch<()>>)
    returns (effects: seq<Effect>)
    requires c.targetCpuUsage > 0.0
    requires |replies| == |polls|
    ensures effects == Run(c, polls)
  {
    effects := [];
    var i := 0;
    while i < |polls|
      invariant 0 <= i <= |polls|
      invariant effects == Run(c, polls[..i])
    {
      assert polls[..i + 1][..i] == polls[..i];
      effects := effects + [Send(StatusRequest(c))];
      var status := GetStatus(polls[i]);
      if status.None? {
        effects := effects + [Sleep(c.pollingIntervalMs)];
        i := i + 1;
        continue;
      }
      var decision := Decide(status.value, c.targetCpuUsage);
      var command := Command(decision);
      if command.Some? {
        effects := effects + [Send(ReplicasRequest(c, command.value))];
        var ignored := UpdateReplicas(replies[i]);
      }
      effects := effects + [Sleep(c.pollingIntervalMs)];
      i := i + 1;
    }
    assert polls[..i] == polls;
  }

  /** The replica counts of the `/replicas` updates among `effects`, in order. */
  function Updates(effects: seq<Effect>): seq<int>
  {
    if effects == [] then [] else UpdateIn(effects[0]) + Updates(effects[1..])
  }

  /** The replica count of `e` when it is a `/replicas` update. */
  function UpdateIn(e: Effect): seq<int>
  {
    if e.Send? && e.req.Put? then [e.req.replicas] else []
  }

  lemma {:induction false} UpdatesAppend(a: seq<Effect>, b: seq<Effect>)
    ensures Updates(a + b) == Updates(a) + Updates(b)
  {
    if a == [] {
      assert a + b == b;
    } else {
      assert (a + b)[0] == a[0];
      assert (a + b)[1..] == a[1..] + b;
      UpdatesAppend(a[1..], b);
    }
  }

  /** The updates of one iteration are exactly the one its decision calls for, if any. */
  lemma IterationUpdates(c: Config, poll: Fetch<Option<Status>>)
    requires c.targetCpuUsage > 0.0
    ensures Updates(Iteration(c, poll)) == match UpdateOf(c, poll) case None => [] case Some(n) => [n]
  {
    var mid := match UpdateOf(c, poll) case None => [] case Some(n) => [Send(ReplicasRequest(c, n))];
    UpdatesAppend([Send(StatusRequest(c))] + mid, [Sleep(c.pollingIntervalMs)]);
    UpdatesAppend([Send(StatusRequest(c))], mid);
    if mid != [] {
      assert Updates(mid) == Updates(mid[1..]) + [mid[0].req.replicas];
    }
  }

  /**
   * A failed poll (`getStatus` gives null) costs the iteration only the status
   * request and the sleep: no update is sent, and the loop goes on to the next poll.
   */
  lemma FailedPollSkipsToSleep(c: Config, poll: Fetch<Option<Status>>)
    requires c.targetCpuUsage > 0.0 && GetStatus(poll).None?
    ensures Iteration(c, poll) == [Send(StatusRequest(c)), Sleep(c.pollingIntervalMs)]
  {
  }

  /** With CPU exactly at the target, the iteration sends no update. */
  lemma AtTargetNoUpdate(c: Config, poll: Fetch<Option<Status>>)
    requires c.targetCpuUsage > 0.0
    requires GetStatus(poll).Some? && GetStatus(poll).value.cpu == c.targetCpuUsage
    ensures Iteration(c, poll) == [Send(StatusRequest(c)), Sleep(c.pollingIntervalMs)]
  {
  }

  /**
   * With CPU above the target, the iteration sends exactly one update, for the
   * ceiling of the wanted count, between the status request and the sleep;
   * from a non-negative replica count it asks for at least as many replicas as
   * reported, and for more from one replica up.
   */
  lemma AboveTargetOneUpdate(c: Config, poll: Fetch<Option<Status>>)
    requires c.targetCpuUsage > 0.0
    requires GetStatus(poll).Some? && GetStatus(poll).value.cpu > c.targetCpuUsage
    ensures var s := GetStatus(poll).value;
      var n := Ceil(Wanted(s, c.targetCpuUsage));
      && Iteration(c, poll) == [Send(StatusRequest(c)), Send(ReplicasRequest(c, n)), Sleep(c.pollingIntervalMs)]
      && (s.replicas >= 0 ==> n >= s.replicas)
      && (s.replicas >= 1 ==> n > s.replicas)
  {
    var s := GetStatus(poll).value;
    assert UpdateOf(c, poll) == Some(Ceil(Wanted(s, c.targetCpuUsage)));
    if s.replicas >= 0 {
      ScaleUpGrows(s, c.targetCpuUsage);
    }
  }

  /**
   * With CPU below the target, the iteration sends an update exactly when the
   * total load `replicas * cpu` covers at least one replica at the target; that
   * update never asks for zero, and from a non-negative replica count it removes
   * at least one replica.
   */
  lemma BelowTargetUpdate(c: Config, poll: Fetch<Option<Status>>)
    requires c.targetCpuUsage > 0.0
    requires GetStatus(poll).Some? && GetStatus(poll).value.cpu < c.targetCpuUsage
    ensures var s := GetStatus(poll).value;
      UpdateOf(c, poll).Some? <==> s.replicas as real * s.cpu >= c.targetCpuUsage
    ensures UpdateOf(c, poll).Some? ==> UpdateOf(c, poll).value >= 1
    ensures GetStatus(poll).value.replicas >= 0 && UpdateOf(c, poll).Some? ==>
      UpdateOf(c, poll).value < GetStatus(poll).value.replicas
  {
    var s := GetStatus(poll).value;
    if s.replicas >= 0 && Decide(s, c.targetCpuUsage).ScaleDown? {
      ScaleDownShrinks(s, c.targetCpuUsage);
    }
  }

  /** Each iteration sends at most one update, so a run sends no more updates than it has iterations. */
  lemma {:induction false} AtMostOneUpdatePerIteration(c: Config, polls: seq<Fetch<Option<Status>>>)
    requires c.targetCpuUsage > 0.0
    ensures |Updates(Run(c, polls))| <= |polls|
    decreases |polls|
  {
    if polls != [] {
      var init := polls[..|polls| - 1];
      AtMostOneUpdatePerIteration(c, init);
      UpdatesAppend(Run(c, init), Iteration(c, polls[|polls| - 1]));
      IterationUpdates(c, polls[|polls| - 1]);
    }
  }

  /** Every snapshot that the loop acts on reports at least one replica. */
  ghost predicate ReportsReplicas(polls: seq<Fetch<Option<Status>>>)
  {
    forall i :: 0 <= i < |polls| && GetStatus(polls[i]).Some? ==> GetStatus(polls[i]).value.replicas >= 1
  }

  /**
   * No update ever asks for fewer than one replica, as long as the service
   * reports at least one: scale-downs stop at one by the guard, scale-ups grow
   * the reported count.
   */
  lemma {:induction false} UpdatesArePositive(c: Config, polls: seq<Fetch<Option<Status>>>)
    requires c.targetCpuUsage > 0.0 && ReportsReplicas(polls)
    ensures forall k :: 0 <= k < |Updates(Run(c, polls))| ==> Updates(Run(c, polls))[k] >= 1
    decreases |polls|
  {
    if polls != [] {
      var init, last := polls[..|polls| - 1], polls[|polls| - 1];
      assert ReportsReplicas(init) by {
        forall i | 0 <= i < |init| && GetStatus(init[i]).Some?
          ensures GetStatus(init[i]).value.replicas >= 1
        {
          assert init[i] == polls[i];
        }
      }
      UpdatesArePositive(c, init);
      UpdatesAppend(Run(c, init), Iteration(c, last));
      IterationUpdates(c, last);
      if GetStatus(last).Some? {
        var s := GetStatus(last).value;
        assert s.replicas >= 1 by {
          assert last == polls[|polls| - 1];
        }
        if s.cpu > c.targetCpuUsage {
          ScaleUpGrows(s, c.targetCpuUsage);
        }
      }
    }
  }

  /** Runs compose: the effects of two stretches of polls are the effects of each, in order. */
  lemma {:induction false} RunAppend(c: Config, a: seq<Fetch<Option<Status>>>, b: seq<Fetch<Option<Status>>>)
    requires c.targetCpuUsage > 0.0
    ensures Run(c, a + b) == Run(c, a) + Run(c, b)
    decreases |b|
  {
    if b == [] {
      assert a + b == a;
    } else {
      var init := b[..|b| - 1];
      assert (a + b)[..|a + b| - 1] == a + init;
      RunAppend(c, a, init);
    }
  }

  /**
   * No state is carried from one iteration to the next: the effects of
   * iteration `k` depend on its own poll only, whatever came before or after.
   */
  lemma IterationIsLocal(c: Config, polls: seq<Fetch<Option<Status>>>, k: nat)
    requires c.targetCpuUsage > 0.0 && k < |polls|
    ensures Run(c, polls) == Run(c, polls[..k]) + Iteration(c, polls[k]) + Run(c, polls[k + 1..])
  {
    assert polls == polls[..k] + [polls[k]] + polls[k + 1..];
    RunAppend(c, polls[..k] + [polls[k]], polls[k + 1..]);
    RunAppend(c, polls[..k], [polls[k]]);
    assert [polls[k]][..0] == [];
  }

  /** Every `/replicas` update in `e` comes right after a `/status` request. */
  ghost predicate ReadBeforeUpdate(c: Config, e: seq<Effect>)
  {
    forall j :: 0 <= j < |e| && UpdateIn(e[j]) != [] ==> 1 <= j && e[j - 1] == Send(StatusRequest(c))
  }

  lemma ReadBeforeUpdateAppend(c: Config, a: seq<Effect>, b: seq<Effect>)
    requires ReadBeforeUpdate(c, a) && ReadBeforeUpdate(c, b)
    requires b != [] ==> UpdateIn(b[0]) == []
    ensures ReadBeforeUpdate(c, a + b)
  {
    var e := a + b;
    forall j | 0 <= j < |e| && UpdateIn(e[j]) != []
      ensures 1 <= j && e[j - 1] == Send(StatusRequest(c))
    {
      if j < |a| {
        assert e[j] == a[j];
        assert e[j - 1] == a[j - 1];
      } else {
        assert e[j] == b[j - |a|];
        assert e[j - 1] == b[j - |a| - 1];
      }
    }
  }

  /**
   * The status read comes before the decision it feeds: every `/replicas`
   * update in a run is sent right after a `/status` request.
   */
  lemma {:induction false} UpdateFollowsStatusRead(c: Config, polls: seq<Fetch<Option<Status>>>)
    requires c.targetCpuUsage > 0.0
    ensures ReadBeforeUpdate(c, Run(c, polls))
    decreases |polls|
  {
    if polls != [] {
      var init := polls[..|polls| - 1];
      UpdateFollowsStatusRead(c, init);
      var it := Iteration(c, polls[|polls| - 1]);
      assert ReadBeforeUpdate(c, it) by {
        forall j | 0 <= j < |it| && UpdateIn(it[j]) != []
          ensures 1 <= j && it[j - 1] == Send(StatusRequest(c))
        {
          assert it[0] == Send(StatusRequest(c)) && it[|it| - 1] == Sleep(c.pollingIntervalMs);
          assert |it| <= 3;
        }
      }
      ReadBeforeUpdateAppend(c, Run(c, init), it);
    }
  }
}
