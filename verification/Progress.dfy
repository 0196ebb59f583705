/**
 That things do happen: which steps are open to a user, that a deletion can always go through, and concrete runs
 from the empty cluster in which a namespace is labelled and a carried profile is cleaned up and removed.
 */
module Progress {
  import opened Strings
  import opened Api
  import opened ProfileAdmission
  import opened NamespaceAdmission
  import opened ProfileController
  import opened Protocol
  import Settling

  // ---------------------------------------------------------------- admission always has an outcome

  lemma {:induction false} Youngest(profiles: set<QuotaProfile>) returns (p: QuotaProfile)
    requires profiles != {}
    ensures p in profiles && forall q :: q in profiles ==> q.created <= p.created
  {
    p :| p in profiles;
    if profiles != {p} {
      assert profiles == (profiles - {p}) + {p} && profiles - {p} != {};
      var q := Youngest(profiles - {p});
      p := if q.created < p.created then p else q;
    }
  }

  lemma {:induction false} SomeSortedListing(values: set<QuotaProfile>) returns (s: seq<QuotaProfile>)
    ensures multiset(s) == multiset(values) && SortedByCreation(s)
  {
    if values == {} {
      s := [];
    } else {
      var p := Youngest(values);
      var rest := SomeSortedListing(values - {p});
      s := rest + [p];
      forall q | q in rest ensures q.created <= p.created {
        assert q in multiset(rest);
      }
    }
  }

  /** Every write of a namespace has an outcome, and with regular profiles and a label that resolves it is admitted. */
  lemma SomeDecision(profiles: Profiles, name: string, labels: Labels, now: string) returns (out: Admission)
    requires forall k :: k in profiles ==> AtMostOneKey(profiles[k])
    requires KeysAgree(profiles)
    ensures MayDecide(profiles, name, labels, now, out)
    ensures Regular(profiles) && Resolves(profiles, labels) ==> out.Admitted?
  {
    var s := SomeSortedListing(profiles.Values);
    Listed(s, profiles);
    out := Decision(profiles, s, name, labels, now);
    if Regular(profiles) && Resolves(profiles, labels) {
      AdmissionOutcome(profiles, s, name, labels, now);
    }
  }

  // ---------------------------------------------------------------- the steps of users

  lemma AcceptedExactly(profiles: Profiles, p: QuotaProfile)
    requires SelectorInvariant(profiles)
    ensures ProfileAccepted(profiles, p) <==> SelectorInvariant(profiles[p.key := p])
  {
    var s := SomeSortedListing(profiles.Values);
    AcceptedWritesKeepInvariant(profiles, p, s);
    if ProfileAccepted(profiles, p) {
      AcceptedKeeps(profiles, p);
    }
  }

  /** A new profile is stored, and nothing else changes, exactly when the selectors stay sound with it. */
  lemma CreateProfileExact(s: State, p: QuotaProfile, t: State)
    requires SelectorInvariant(s.profiles) && p.key !in s.profiles && !p.deleting && !p.finalizer
    ensures Next(s, CreateProfile(p), t)
            <==> && SelectorInvariant(s.profiles[p.key := p])
                 && t == State(s.profiles[p.key := p], s.namespaces, s.workers)
  {
    AcceptedExactly(s.profiles, p);
  }

  /** The same for a new spec of a stored profile, which keeps its finalizer and its deletion mark. */
  lemma UpdateSpecExact(s: State, k: ProfileKey, spec: QuotaProfileSpec, t: State)
    requires SelectorInvariant(s.profiles) && k in s.profiles
    ensures var p := QuotaProfile(k, s.profiles[k].created, s.profiles[k].deleting, s.profiles[k].finalizer, spec);
            Next(s, UpdateSpec(k, spec), t)
            <==> SelectorInvariant(s.profiles[k := p]) && t == State(s.profiles[k := p], s.namespaces, s.workers)
  {
    AcceptedExactly(s.profiles, s.profiles[k].(spec := spec));
  }

  /**
   A deletion is always open, and marks a profile that has the finalizer and removes one that has not: afterwards
   the profile is there and terminating, or it is gone; everything else is as it was.
   */
  lemma RequestDeleteExact(s: State, k: ProfileKey) returns (t: State)
    requires k in s.profiles
    ensures Next(s, RequestDelete(k), t) && forall u :: Next(s, RequestDelete(k), u) ==> u == t
    ensures if s.profiles[k].finalizer
            then k in t.profiles && t.profiles[k].deleting && t.profiles[k].finalizer
                 && t.profiles[k].spec == s.profiles[k].spec && t.profiles[k].created == s.profiles[k].created
            else k !in t.profiles
    ensures forall l :: l != k ==> (l in t.profiles <==> l in s.profiles)
    ensures forall l :: l != k && l in s.profiles ==> t.profiles[l] == s.profiles[l]
    ensures t.namespaces == s.namespaces && t.workers == s.workers
  {
    var p := s.profiles[k];
    var profiles := if p.finalizer then s.profiles[k := p.(deleting := true)] else s.profiles - {k};
    t := State(profiles, s.namespaces, s.workers);
  }

  /** In every good state with regular profiles a user can create any namespace and send any stored one again. */
  lemma NamespaceWritesGoThrough(s: State, n: string, labels: Labels, now: string) returns (out: Labels)
    requires Inv(s) && Selectable(s.profiles)
    requires if n in s.namespaces && PROFILE_LABEL in labels
             then PROFILE_LABEL in s.namespaces[n] && labels[PROFILE_LABEL] == s.namespaces[n][PROFILE_LABEL]
             else PROFILE_LABEL !in labels
    ensures Reaches(s, State(s.profiles, s.namespaces[n := out], s.workers))
    ensures Documented(s.profiles, n, out, Assigned(out)) <==> !Shadowed(s.profiles, n, labels)
  {
    var decision := SomeDecision(s.profiles, n, labels, now);
    out := decision.labels;
    Settling.AdmittedOutcome(s.profiles, n, labels, now, out);
    var t := State(s.profiles, s.namespaces[n := out], s.workers);
    if n in s.namespaces {
      ByStep(s, RelabelNamespace(n, labels, now, out), t);
    } else {
      ByStep(s, CreateNamespace(n, labels, now, out), t);
    }
  }

  /** And delete any, which takes nothing else with it. */
  lemma NamespaceDeletionGoesThrough(s: State, n: string)
    ensures Reaches(s, State(s.profiles, s.namespaces - {n}, s.workers))
  {
    ByStep(s, DeleteNamespace(n), State(s.profiles, s.namespaces - {n}, s.workers));
  }

  // ---------------------------------------------------------------- deletions

  /**
   From any good state the deletion of a live profile with its finalizer leads to its removal, with every outcome
   the cleanup of the namespaces may have.
   */
  lemma DeletionGoesThrough(s: State, k: ProfileKey, now: string, after: map<string, Labels>)
    requires Inv(s) && k in s.profiles && k !in s.workers
    requires !s.profiles[k].deleting && s.profiles[k].finalizer && !EmptyLabelSelector(s.profiles[k])
    requires after.Keys == s.namespaces.Keys
    requires forall n :: n in s.namespaces ==>
               Cleaned(s.profiles[k := s.profiles[k].(deleting := true)], k, n, s.namespaces[n], now, after[n])
    ensures Reaches(s, State(s.profiles - {k}, after, s.workers))
  {
    var marked := State(s.profiles[k := s.profiles[k].(deleting := true)], s.namespaces, s.workers);
    DeletionMarkKeeps(s.profiles, k);
    ByStep(s, RequestDelete(k), marked);
    HandleDeletionIsASchedule(marked, k, now, after);
    assert marked.profiles - {k} == s.profiles - {k};
    Through(s, marked, State(s.profiles - {k}, after, s.workers));
  }

  /** The cleanup of every namespace has some outcome. */
  lemma {:induction false} SomeCleanup(profiles: Profiles, k: ProfileKey, namespaces: map<string, Labels>, now: string)
    returns (after: map<string, Labels>)
    requires Regular(profiles)
    ensures after.Keys == namespaces.Keys
    ensures forall n :: n in namespaces ==> Cleaned(profiles, k, n, namespaces[n], now, after[n])
    decreases |namespaces|
  {
    if namespaces == map[] {
      after := map[];
    } else {
      var n :| n in namespaces;
      var rest := namespaces - {n};
      assert rest.Keys == namespaces.Keys - {n} && |rest.Keys| < |namespaces.Keys|;
      var others := SomeCleanup(profiles, k, rest, now);
      var decision := SomeDecision(profiles, n, WithoutProfile(namespaces[n]), now);
      after := others[n := if Assigned(namespaces[n]) == Some(k) then decision.labels else namespaces[n]];
      forall m | m in namespaces ensures Cleaned(profiles, k, m, namespaces[m], now, after[m]) {
        assert m != n ==> m in rest && Cleaned(profiles, k, m, rest[m], now, others[m]);
      }
    }
  }

  /**
   In a good state with regular profiles a deletion can always be carried through: the profile goes, no namespace
   names it, and each that did has the documented winner among the others.
   */
  lemma DeletionCanGoThrough(s: State, k: ProfileKey, now: string) returns (after: map<string, Labels>)
    requires Inv(s) && Selectable(s.profiles) && k in s.profiles && k !in s.workers
    requires !s.profiles[k].deleting && s.profiles[k].finalizer
    ensures after.Keys == s.namespaces.Keys && Reaches(s, State(s.profiles - {k}, after, s.workers))
    ensures forall n :: n in after ==> Assigned(after[n]) != Some(k)
    ensures forall n :: n in after && Assigned(s.namespaces[n]) == Some(k) ==>
              Documented(s.profiles - {k}, n, after[n], Assigned(after[n]))
  {
    var marked := s.profiles[k := s.profiles[k].(deleting := true)];
    assert Regular(marked);
    assert marked - {k} == s.profiles - {k};
    after := SomeCleanup(marked, k, s.namespaces, now);
    forall n | n in after
      ensures Assigned(after[n]) != Some(k)
      ensures Assigned(s.namespaces[n]) == Some(k) ==> Documented(s.profiles - {k}, n, after[n], Assigned(after[n]))
    {
      CleanedOutcome(marked, k, n, s.namespaces[n], now, after[n]);
    }
    assert ExactlyOneKey(s.profiles[k]);
    DeletionGoesThrough(s, k, now, after);
  }

  // ---------------------------------------------------------------- concrete runs

  /** A profile for one namespace by name, with the finalizer or being deleted as told. */
  function Stage(name: string, specs: seq<ResourceQuotaSpec>, finalizer: bool, deleting: bool): QuotaProfile {
    QuotaProfile(ProfileKey("o", "a"), 1, deleting, finalizer,
                 QuotaProfileSpec(NamespaceSelector(None, Some(name)), 0, specs, []))
  }

  lemma StageFacts(name: string, specs: seq<ResourceQuotaSpec>, finalizer: bool, deleting: bool)
    ensures var p := Stage(name, specs, finalizer, deleting);
            && DotFree(p.key) && p.key != ProfileKey("", "") && !EmptyLabelSelector(p) && Serialized(p) == p
            && Regular(map[p.key := p]) && SelectorInvariant(map[p.key := p])
            && ProfileAccepted(map[], p) && ProfileAccepted(map[p.key := p], p)
            && ProfileAccepted(map[p.key := Stage(name, specs, false, deleting)], p)
            && ProfileAccepted(map[p.key := Stage(name, specs, true, deleting)], p)
  {
    var p := Stage(name, specs, finalizer, deleting);
    assert "o"[0] == 'o' && "a"[0] == 'a';
    forall before: Profiles | before.Keys <= {p.key} && SelectorInvariant(before) ensures ProfileAccepted(before, p) {
      assert before[p.key := p] == map[p.key := p];
      AcceptedExactly(before, p);
    }
    var other, same := Stage(name, specs, false, deleting), Stage(name, specs, true, deleting);
    assert SelectorInvariant(map[p.key := other]) && SelectorInvariant(map[p.key := same]);
  }

  /** Admission of the namespace it names, while it is live and while it is being deleted, and with no profile. */
  lemma StageAdmission(name: string, specs: seq<ResourceQuotaSpec>, finalizer: bool, deleting: bool, labels: Labels,
                       now: string)
    ensures var p := Stage(name, specs, finalizer, deleting);
            MayDecide(map[p.key := p], name, labels, now,
                      Admitted(if deleting then WithoutProfile(labels) else WithProfile(labels, p.key, now)))
    ensures MayDecide(map[], name, labels, now, Admitted(WithoutProfile(labels)))
  {
    var p := Stage(name, specs, finalizer, deleting);
    var profiles := map[p.key := p];
    assert profiles.Values == {p};
    assert SortedListing([p], profiles) && AtMostOneKey(p);
    if deleting {
      assert Visit(profiles, p, name, labels, false, now) == Continue(labels, false);
      assert Fold(profiles, [p], 1, name, labels, false, now) == Admitted(WithoutProfile(labels));
    }
    assert Decision(profiles, [p], name, labels, now)
           == Admitted(if deleting then WithoutProfile(labels) else WithProfile(labels, p.key, now));
    var none: Profiles := map[];
    assert SortedListing([], none) && Decision(none, [], name, labels, now) == Admitted(WithoutProfile(labels));
  }

  const OWNER: ProfileKey := ProfileKey("o", "a")

  /** The labels of a namespace without any other, given to that profile. */
  function Given(now: string): Labels {
    map["quota.dev.operator/profile" := "o.a", "quota.dev.operator/profile-last-update-timestamp" := now]
  }

  lemma GivenIsWritten(now: string)
    ensures Given(now) == WithProfile(map[], OWNER, now) && Assigned(Given(now)) == Some(OWNER)
    ensures WithoutProfile(Given(now)) == map[] && WithProfile(Given(now), OWNER, now) == Given(now)
  {
    assert ProfileID(OWNER) == "o.a";
    assert DotFree(OWNER) by {
      assert "o"[0] == 'o' && "a"[0] == 'a';
    }
    AssignedWithProfile(map[], OWNER, now);
  }

  /** The steps of the first run, with the state each leads to. */
  function CleanupSteps(name: string, now: string): seq<(Action, State)> {
    var first, kept, doomed := Stage(name, [], false, false), Stage(name, [], true, false), Stage(name, [], true, true);
    var given := map[name := Given(now)];
    [(CreateProfile(first), State(map[OWNER := first], map[], map[])),
     (StartReconcile(OWNER), State(map[OWNER := kept], map[], map[OWNER := Finalized])),
     (StopWorker(OWNER), State(map[OWNER := kept], map[], map[])),
     (CreateNamespace(name, map[], now, Given(now)), State(map[OWNER := kept], given, map[])),
     (RequestDelete(OWNER), State(map[OWNER := doomed], given, map[])),
     (StartCleanup(OWNER), State(map[OWNER := doomed], given, map[OWNER := Cleaning(given)])),
     (CleanNamespace(OWNER, name, now, map[]),
      State(map[OWNER := doomed], map[name := map[]], map[OWNER := Cleaning(map[])])),
     (RemoveFinalizer(OWNER), State(map[], map[name := map[]], map[]))]
  }

  function States(steps: seq<(Action, State)>): seq<State> {
    [INITIAL] + seq(|steps|, i requires 0 <= i < |steps| => steps[i].1)
  }

  function Actions(steps: seq<(Action, State)>): seq<Action> {
    seq(|steps|, i requires 0 <= i < |steps| => steps[i].0)
  }

  /** One step of a run given like this. */
  ghost predicate Leads(s: State, step: (Action, State)) {
    Next(s, step.0, step.1) && Disciplined(s, step.0)
  }

  function Before(steps: seq<(Action, State)>, i: nat): State
    requires i <= |steps|
  {
    if i == 0 then INITIAL else steps[i - 1].1
  }

  lemma RunStep(steps: seq<(Action, State)>, i: nat)
    requires i < |steps| && Leads(Before(steps, i), steps[i])
    ensures Next(States(steps)[i], Actions(steps)[i], States(steps)[i + 1])
    ensures Disciplined(States(steps)[i], Actions(steps)[i])
  {
    assert States(steps)[i] == Before(steps, i);
    assert States(steps)[i + 1] == steps[i].1 && Actions(steps)[i] == steps[i].0;
  }

  lemma RunOf(steps: seq<(Action, State)>)
    requires forall i :: 0 <= i < |steps| ==> Leads(Before(steps, i), steps[i])
    ensures Run(States(steps), Actions(steps))
  {
    forall i | 0 <= i < |steps|
      ensures Next(States(steps)[i], Actions(steps)[i], States(steps)[i + 1])
      ensures Disciplined(States(steps)[i], Actions(steps)[i])
    {
      RunStep(steps, i);
    }
  }

  // The single steps, from the state before them.

  lemma CreationStep(name: string, specs: seq<ResourceQuotaSpec>, namespaces: map<string, Labels>)
    ensures var p := Stage(name, specs, false, false);
            Leads(State(map[], namespaces, map[]), (CreateProfile(p), State(map[OWNER := p], namespaces, map[])))
  {
    StageFacts(name, specs, false, false);
  }

  lemma FinalizerStep(name: string, specs: seq<ResourceQuotaSpec>, namespaces: map<string, Labels>)
    ensures var p, q := Stage(name, specs, false, false), Stage(name, specs, true, false);
            Leads(State(map[OWNER := p], namespaces, map[]),
                  (StartReconcile(OWNER), State(map[OWNER := q], namespaces, map[OWNER := Finalized])))
  {
    StageFacts(name, specs, true, false);
    var p, q := Stage(name, specs, false, false), Stage(name, specs, true, false);
    assert map[OWNER := p][OWNER := q] == map[OWNER := q];
  }

  lemma StopStep(profiles: Profiles, namespaces: map<string, Labels>)
    ensures Leads(State(profiles, namespaces, map[OWNER := Finalized]),
                  (StopWorker(OWNER), State(profiles, namespaces, map[])))
  {
    var workers: map<ProfileKey, Worker> := map[OWNER := Finalized];
    assert workers - {OWNER} == map[];
  }

  lemma NamespaceStep(name: string, now: string)
    ensures var p := Stage(name, [], true, false);
            Leads(State(map[OWNER := p], map[], map[]),
                  (CreateNamespace(name, map[], now, Given(now)),
                   State(map[OWNER := p], map[name := Given(now)], map[])))
    ensures Leads(INITIAL, (CreateNamespace(name, map[], now, map[]), State(map[], map[name := map[]], map[])))
  {
    StageAdmission(name, [], true, false, map[], now);
    GivenIsWritten(now);
  }

  lemma DeletionStep(name: string, namespaces: map<string, Labels>)
    ensures var p, q := Stage(name, [], true, false), Stage(name, [], true, true);
            Leads(State(map[OWNER := p], namespaces, map[]),
                  (RequestDelete(OWNER), State(map[OWNER := q], namespaces, map[])))
            && Leads(State(map[OWNER := q], namespaces, map[]),
                     (StartCleanup(OWNER), State(map[OWNER := q], namespaces, map[OWNER := Cleaning(namespaces)])))
  {
    var p, q := Stage(name, [], true, false), Stage(name, [], true, true);
    assert map[OWNER := p][OWNER := q] == map[OWNER := q];
  }

  lemma CleaningLeads(s: State, listed: map<string, Labels>, name: string, now: string, out: Labels)
    requires OWNER in s.workers && s.workers[OWNER] == Cleaning(listed) && name in listed
    requires name in s.namespaces && s.namespaces[name] == listed[name] && Assigned(listed[name]) == Some(OWNER)
    requires MayDecide(s.profiles, name, WithoutProfile(listed[name]), now, Admitted(out))
    ensures Leads(s, (CleanNamespace(OWNER, name, now, out),
                      State(s.profiles, s.namespaces[name := out], s.workers[OWNER := Cleaning(listed - {name})])))
  {
  }

  lemma CleaningStep(name: string, now: string)
    ensures var q, given := Stage(name, [], true, true), map[name := Given(now)];
            Leads(State(map[OWNER := q], given, map[OWNER := Cleaning(given)]),
                  (CleanNamespace(OWNER, name, now, map[]),
                   State(map[OWNER := q], map[name := map[]], map[OWNER := Cleaning(map[])])))
  {
    StageAdmission(name, [], true, true, map[], now);
    GivenIsWritten(now);
    var given := map[name := Given(now)];
    var s := State(map[OWNER := Stage(name, [], true, true)], given, map[OWNER := Cleaning(given)]);
    CleaningLeads(s, given, name, now, map[]);
    assert given - {name} == map[] && given[name := map[]] == map[name := map[]];
    assert s.workers[OWNER := Cleaning(map[])] == map[OWNER := Cleaning(map[])];
  }

  lemma RemovalStep(name: string, namespaces: map<string, Labels>)
    ensures var q := Stage(name, [], true, true);
            Leads(State(map[OWNER := q], namespaces, map[OWNER := Cleaning(map[])]),
                  (RemoveFinalizer(OWNER), State(map[], namespaces, map[])))
  {
    StageFacts(name, [], false, true);
    var q := Stage(name, [], true, true);
    var workers: map<ProfileKey, Worker> := map[OWNER := Cleaning(map[])];
    assert workers - {OWNER} == map[] && map[OWNER := q] - {OWNER} == map[];
  }

  lemma ListingStep(p: QuotaProfile, namespaces: map<string, Labels>)
    ensures Leads(State(map[OWNER := p], namespaces, map[OWNER := Finalized]),
                  (ListForLabelling(OWNER), State(map[OWNER := p], namespaces, map[OWNER := Labelling(p, namespaces)])))
  {
  }

  lemma LabellingLeads(s: State, p: QuotaProfile, listed: map<string, Labels>, name: string, now: string, out: Labels)
    requires OWNER in s.workers && s.workers[OWNER] == Labelling(p, listed) && name in listed
    requires name in s.namespaces && s.namespaces[name] == listed[name]
    requires p.key == OWNER && NameMatch(p, name) && AtMostOneKey(p)
    requires MayDecide(s.profiles, name, WithProfile(listed[name], OWNER, now), now, Admitted(out))
    ensures Leads(s, (LabelNamespace(OWNER, name, now, out),
                      State(s.profiles, s.namespaces[name := out], s.workers[OWNER := Labelling(p, listed - {name})])))
  {
  }

  lemma GivenAdmitted(name: string, now: string, specs: seq<ResourceQuotaSpec>)
    ensures MayDecide(map[OWNER := Stage(name, specs, true, false)], name, WithProfile(map[], OWNER, now), now,
                      Admitted(Given(now)))
  {
    GivenIsWritten(now);
    StageAdmission(name, specs, true, false, Given(now), now);
  }

  lemma LabellingTaken(name: string, now: string, specs: seq<ResourceQuotaSpec>)
    ensures var p, bare: map<string, Labels> := Stage(name, specs, true, false), map[name := map[]];
            Leads(State(map[OWNER := p], bare, map[OWNER := Labelling(p, bare)]),
                  (LabelNamespace(OWNER, name, now, Given(now)),
                   State(map[OWNER := p], map[name := Given(now)], map[OWNER := Labelling(p, map[])])))
  {
    GivenAdmitted(name, now, specs);
    var p, bare: map<string, Labels> := Stage(name, specs, true, false), map[name := map[]];
    var s := State(map[OWNER := p], bare, map[OWNER := Labelling(p, bare)]);
    LabellingLeads(s, p, bare, name, now, Given(now));
    assert bare - {name} == map[] && bare[name := Given(now)] == map[name := Given(now)];
    assert s.workers[OWNER := Labelling(p, map[])] == map[OWNER := Labelling(p, map[])];
  }

  lemma CleanupStepLeads(name: string, now: string, i: nat)
    requires i < 8
    ensures var steps := CleanupSteps(name, now); Leads(Before(steps, i), steps[i])
  {
    if i < 4 {
      FirstHalfLeads(name, now, i);
    } else if i == 4 || i == 5 {
      DeletionStep(name, map[name := Given(now)]);
    } else if i == 6 {
      CleaningStep(name, now);
    } else {
      RemovalStep(name, map[name := map[]]);
    }
  }

  lemma FirstHalfLeads(name: string, now: string, i: nat)
    requires i < 4
    ensures var steps := CleanupSteps(name, now); Leads(Before(steps, i), steps[i])
  {
    if i == 0 {
      CreationStep(name, [], map[]);
    } else if i == 1 {
      FinalizerStep(name, [], map[]);
    } else if i == 2 {
      StopStep(map[OWNER := Stage(name, [], true, false)], map[]);
    } else {
      NamespaceStep(name, now);
    }
  }

  /**
   The counterpart of `DanglingRun`: a profile gets its finalizer, admission gives it to a namespace, it is deleted,
   the namespace is cleaned, and the profile goes.
   */
  lemma CleanupRun(name: string, now: string)
    ensures var steps := CleanupSteps(name, now);
            && Run(States(steps), Actions(steps))
            && Carries(steps[5].1, OWNER) && Actions(steps)[7] == RemoveFinalizer(OWNER)
            && States(steps)[8] == State(map[], map[name := map[]], map[])
  {
    var steps := CleanupSteps(name, now);
    forall i | 0 <= i < |steps| ensures Leads(Before(steps, i), steps[i]) {
      CleanupStepLeads(name, now, i);
    }
    RunOf(steps);
    GivenIsWritten(now);
    assert Assigned(steps[5].1.namespaces[name]) == Some(OWNER);
  }

  /** The steps of a run in which a controller labels a namespace for a profile with these quota specs. */
  function LabellingSteps(name: string, now: string, specs: seq<ResourceQuotaSpec>): seq<(Action, State)> {
    var first, kept := Stage(name, specs, false, false), Stage(name, specs, true, false);
    var bare: map<string, Labels> := map[name := map[]];
    [(CreateNamespace(name, map[], now, map[]), State(map[], bare, map[])),
     (CreateProfile(first), State(map[OWNER := first], bare, map[])),
     (StartReconcile(OWNER), State(map[OWNER := kept], bare, map[OWNER := Finalized])),
     (ListForLabelling(OWNER), State(map[OWNER := kept], bare, map[OWNER := Labelling(kept, bare)])),
     (LabelNamespace(OWNER, name, now, Given(now)),
      State(map[OWNER := kept], map[name := Given(now)], map[OWNER := Labelling(kept, map[])]))]
  }

  lemma LabellingStepLeads(name: string, now: string, specs: seq<ResourceQuotaSpec>, i: nat)
    requires i < 5
    ensures var steps := LabellingSteps(name, now, specs);
            Leads(Before(steps, i), steps[i])
  {
    if i == 0 {
      NamespaceStep(name, now);
    } else if i == 1 {
      CreationStep(name, specs, map[name := map[]]);
    } else if i == 2 {
      FinalizerStep(name, specs, map[name := map[]]);
    } else if i == 3 {
      ListingStep(Stage(name, specs, true, false), map[name := map[]]);
    } else {
      LabellingTaken(name, now, specs);
    }
  }

  lemma LabellingRun(name: string, now: string, specs: seq<ResourceQuotaSpec>)
    ensures var steps := LabellingSteps(name, now, specs); Run(States(steps), Actions(steps))
  {
    var steps := LabellingSteps(name, now, specs);
    forall i | 0 <= i < |steps| ensures Leads(Before(steps, i), steps[i]) {
      LabellingStepLeads(name, now, specs, i);
    }
    RunOf(steps);
  }
}
