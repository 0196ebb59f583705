/**
 From the label to the quotas: the runs in which labels settle, followed by a reconcile of the namespace.
 */
module EndToEnd {
  import opened Strings
  import opened Api
  import opened ProfileAdmission
  import opened NamespaceAdmission
  import opened NamespaceController
  import Protocol
  import Settling
  import opened Progress

  /** The managed quotas are exactly those of the winner: one per spec and named after it, or none at all. */
  ghost predicate HasQuotasOf(profiles: Profiles, winner: Option<ProfileKey>, quotas: Store<ResourceQuotaSpec>) {
    match winner
    case None => forall n :: n in quotas ==> !Managed(quotas[n])
    case Some(k) =>
      k in profiles && Converged(quotas, k, QUOTA_SUFFIX, profiles[k].spec.resourceQuotaSpecs)
  }

  /** No unmanaged quota takes a name the winner needs, and nothing keeps a managed one that is not the winner's. */
  ghost predicate Unobstructed(profiles: Profiles, winner: Option<ProfileKey>, quotas: Store<ResourceQuotaSpec>) {
    match winner
    case None => forall n :: n in quotas && Managed(quotas[n]) ==> !quotas[n].held && !quotas[n].deleting
    case Some(k) =>
      && k in profiles
      && NamesFree(quotas, k, QUOTA_SUFFIX, |profiles[k].spec.resourceQuotaSpecs|)
      && HeldAreCurrent(quotas, k, QUOTA_SUFFIX, |profiles[k].spec.resourceQuotaSpecs|)
  }

  lemma AssignedQuotas(profiles: Profiles, labels: Labels, quotas: Store<ResourceQuotaSpec>)
    requires Resolves(profiles, labels) && WellNamed(quotas, QUOTA_SUFFIX)
    requires forall k :: k in profiles ==> Countable(profiles[k])
    ensures QuotasFor(profiles, labels, quotas).Some?
    ensures HasQuotasOf(profiles, Assigned(labels), QuotasFor(profiles, labels, quotas).value)
            <==> Unobstructed(profiles, Assigned(labels), quotas)
  {
    match Assigned(labels)
    case Some(k) =>
      SplitProfileIDDotFree(labels[PROFILE_LABEL]);
      WellNamedConverges(quotas, k, QUOTA_SUFFIX, profiles[k].spec.resourceQuotaSpecs);
    case None =>
      var final := WithoutManaged(quotas, quotas.Keys);
      assert forall n :: n in final && Managed(final[n]) ==> n in quotas && Managed(quotas[n]);
      assert forall n :: n in quotas && Managed(quotas[n]) && (quotas[n].held || quotas[n].deleting) ==>
        n in final && Managed(final[n]);
  }

  /**
   In every state of every run a reconcile of a namespace whose quotas this controller created does not panic on
   them, and leaves exactly those of the profile the label names if and only if nothing obstructs it.
   */
  lemma QuotasOverRuns(states: seq<Protocol.State>, actions: seq<Protocol.Action>, j: nat, n: string,
                       quotas: Store<ResourceQuotaSpec>)
    requires Protocol.Run(states, actions) && j < |states| && n in states[j].namespaces
    requires WellNamed(quotas, QUOTA_SUFFIX) && forall k :: k in states[j].profiles ==> Countable(states[j].profiles[k])
    ensures var s, labels := states[j], states[j].namespaces[n];
            && QuotasFor(s.profiles, labels, quotas).Some?
            && (HasQuotasOf(s.profiles, Assigned(labels), QuotasFor(s.profiles, labels, quotas).value)
                <==> Unobstructed(s.profiles, Assigned(labels), quotas))
  {
    Protocol.InvariantOverRuns(states, actions, j);
    AssignedQuotas(states[j].profiles, states[j].namespaces[n], quotas);
  }

  /**
   Once a controller has written the namespace, while no profile changes and no user touches it, a reconcile leaves
   exactly the quotas of the documented winner if and only if nothing obstructs it. The label must not have shadowed
   the winner when it all began, unless a cleanup took it away, and no profile may have overreached.
   */
  lemma QuotasOfTheWinner(states: seq<Protocol.State>, actions: seq<Protocol.Action>, i: nat, j: nat, n: string,
                          quotas: Store<ResourceQuotaSpec>, winner: Option<ProfileKey>)
    requires Protocol.Run(states, actions) && Settling.Calm(states, actions, i, j, n) && n in states[i].namespaces
    requires Selectable(states[i].profiles) && DistinctTimestamps(states[i].profiles) && Settling.Current(states[i])
    requires Settling.WrittenBetween(actions, i, j, n) && !Settling.OverreachedBetween(states, actions, i, j, n)
    requires Settling.Overshadowed(states[i], n) ==> Settling.CleanedBetween(actions, i, j, n)
    requires Documented(states[i].profiles, n, states[i].namespaces[n], winner)
    requires WellNamed(quotas, QUOTA_SUFFIX) && forall k :: k in states[i].profiles ==> Countable(states[i].profiles[k])
    ensures n in states[j].namespaces && Assigned(states[j].namespaces[n]) == winner
    ensures var s, labels := states[j], states[j].namespaces[n];
            && QuotasFor(s.profiles, labels, quotas).Some?
            && (HasQuotasOf(s.profiles, winner, QuotasFor(s.profiles, labels, quotas).value)
                <==> Unobstructed(s.profiles, winner, quotas))
  {
    Settling.LabelsSettle(states, actions, i, j, n);
    Protocol.InvariantOverRuns(states, actions, j);
    WinnerStays(states[j].profiles, n, states[i].namespaces[n], states[j].namespaces[n], winner);
    QuotasOverRuns(states, actions, j, n, quotas);
  }

  lemma WinnerStays(profiles: Profiles, n: string, before: Labels, after: Labels, winner: Option<ProfileKey>)
    requires Selectable(profiles) && DistinctTimestamps(profiles) && SelectorInvariant(profiles)
    requires WithoutProfile(after) == WithoutProfile(before)
    requires Documented(profiles, n, before, winner) && Documented(profiles, n, after, Assigned(after))
    ensures Assigned(after) == winner
  {
    DocumentedAgrees(profiles, n, before, after, winner);
    DocumentedIsUnique(profiles, n, after, winner, Assigned(after));
  }

  // ---------------------------------------------------------------- a concrete run

  lemma GivenIsDocumented(name: string, now: string, specs: seq<ResourceQuotaSpec>)
    ensures var p := Stage(name, specs, true, false);
            && Selectable(map[OWNER := p]) && DistinctTimestamps(map[OWNER := p])
            && Documented(map[OWNER := p], name, map[], Some(OWNER))
            && !Shadowed(map[OWNER := p], name, map[])
  {
    StageFacts(name, specs, true, false);
    var profiles := map[OWNER := Stage(name, specs, true, false)];
    assert profiles[OWNER] == Stage(name, specs, true, false);
  }

  lemma NothingOverreaches(name: string, now: string, specs: seq<ResourceQuotaSpec>)
    ensures var steps := LabellingSteps(name, now, specs);
            !Settling.OverreachedBetween(States(steps), Actions(steps), 3, 5, name)
  {
    var steps := LabellingSteps(name, now, specs);
    forall y | 3 <= y < 5 ensures !Settling.Overreaches(States(steps)[y], Actions(steps)[y], name) {
      if y == 4 {
        assert States(steps)[4] == steps[3].1;
        assert States(steps)[4].profiles[OWNER] == Stage(name, specs, true, false);
      } else {
        assert Actions(steps)[3] == Protocol.ListForLabelling(OWNER);
      }
    }
  }

  /** What the first steps leave, and that nobody else acts in the last two. */
  lemma LabellingIsCalm(name: string, now: string, specs: seq<ResourceQuotaSpec>)
    ensures var steps := LabellingSteps(name, now, specs);
            var states, actions, p := States(steps), Actions(steps), Stage(name, specs, true, false);
            && Settling.Calm(states, actions, 3, 5, name) && Settling.WrittenBetween(actions, 3, 5, name)
            && states[3] == Protocol.State(map[OWNER := p], map[name := map[]], map[OWNER := Protocol.Finalized])
            && states[5].profiles == map[OWNER := p] && states[5].namespaces == map[name := Given(now)]
  {
    var steps := LabellingSteps(name, now, specs);
    assert States(steps)[3] == steps[2].1 && States(steps)[4] == steps[3].1 && States(steps)[5] == steps[4].1;
    assert Actions(steps)[3] == steps[3].0 && Settling.LabelsTo(Actions(steps)[4], name);
  }

  /**
   All that `QuotasOfTheWinner` asks for comes about: a namespace without a label, a profile for it, and one reconcile
   of the profile.
   */
  lemma WinnerRun(name: string, now: string, specs: seq<ResourceQuotaSpec>)
    ensures var steps := LabellingSteps(name, now, specs);
            var states, actions := States(steps), Actions(steps);
            && Protocol.Run(states, actions) && Settling.Calm(states, actions, 3, 5, name)
            && name in states[3].namespaces && Settling.Current(states[3])
            && Selectable(states[3].profiles) && DistinctTimestamps(states[3].profiles)
            && Settling.WrittenBetween(actions, 3, 5, name)
            && !Settling.OverreachedBetween(states, actions, 3, 5, name)
            && !Settling.Overshadowed(states[3], name)
            && Documented(states[3].profiles, name, states[3].namespaces[name], Some(OWNER))
  {
    LabellingRun(name, now, specs);
    LabellingIsCalm(name, now, specs);
    GivenIsDocumented(name, now, specs);
    NothingOverreaches(name, now, specs);
  }

  /** And then a reconcile of the namespace, which has no quotas yet, creates the one that the profile specifies. */
  lemma WinnerRunQuotas(name: string, now: string, spec: ResourceQuotaSpec)
    ensures var states := States(LabellingSteps(name, now, [spec]));
            && name in states[5].namespaces
            && QuotasFor(states[5].profiles, states[5].namespaces[name], map[])
               == Some(map["o-a-0-rq" := Object(map["quota.dev.operator/profile" := "o.a"], spec, false, false)])
  {
    LabellingIsCalm(name, now, [spec]);
    GivenIsWritten(now);
    CreatedAlone(OWNER, QUOTA_SUFFIX, 1, spec);
    assert ProfileID(OWNER) == "o.a";
    assert GeneratedName(OWNER, 0, QUOTA_SUFFIX) == "o-a-0-rq";
  }
}
