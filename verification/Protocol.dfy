/**
 The operator as a state machine: users create, change and delete profiles and namespaces while any number
 of profile reconciles, at most one per profile, are in progress. Each write is one step and passes through
 admission; a write based on a stale listing is a conflict and does not happen. The steps of a cleanup
 interleave with everything else.
 */
module Protocol {
  import opened Strings
  import opened Api
  import opened ProfileAdmission
  import opened NamespaceAdmission
  import opened ProfileController
  import Reachability

  // ---------------------------------------------------------------- states and steps

  /** How far the reconcile of one profile has come; `listed` holds the namespaces still to be looked at. */
  datatype Worker =
    | Finalized
    | Labelling(profile: QuotaProfile, listed: map<string, Labels>)
    | Cleaning(listed: map<string, Labels>)

  datatype State = State(profiles: Profiles, namespaces: map<string, Labels>, workers: map<ProfileKey, Worker>)

  const INITIAL: State := State(map[], map[], map[])

  datatype Action =
    | CreateProfile(profile: QuotaProfile)
    | UpdateSpec(key: ProfileKey, spec: QuotaProfileSpec)
    | RequestDelete(key: ProfileKey)
    | StartReconcile(key: ProfileKey)
    | ListForLabelling(key: ProfileKey)
    | LabelNamespace(key: ProfileKey, name: string, now: string, out: Labels)
    | StartCleanup(key: ProfileKey)
    | CleanNamespace(key: ProfileKey, name: string, now: string, out: Labels)
    | SkipNamespace(key: ProfileKey, name: string)
    | RemoveFinalizer(key: ProfileKey)
    | StopWorker(key: ProfileKey)
    | CreateNamespace(name: string, labels: Labels, now: string, out: Labels)
    | RelabelNamespace(name: string, labels: Labels, now: string, out: Labels)
    | DeleteNamespace(name: string)

  /** `validate` accepts the write for some order of the list. */
  ghost predicate ProfileAccepted(profiles: Profiles, p: QuotaProfile) {
    exists stored :: Listing(stored, profiles) && (forall q :: q in stored ==> AtMostOneKey(q))
                     && Validate(p, stored) == Accepted
  }

  ghost predicate Next(s: State, a: Action, t: State) {
    match a
    case CreateProfile(p) =>
      && p.key !in s.profiles && !p.deleting && !p.finalizer && ProfileAccepted(s.profiles, p)
      && t == s.(profiles := s.profiles[p.key := p])
    case UpdateSpec(k, spec) =>
      && k in s.profiles && ProfileAccepted(s.profiles, s.profiles[k].(spec := spec))
      && t == s.(profiles := s.profiles[k := s.profiles[k].(spec := spec)])
    case RequestDelete(k) =>
      && k in s.profiles
      && t == s.(profiles := if s.profiles[k].finalizer then s.profiles[k := s.profiles[k].(deleting := true)]
                             else s.profiles - {k})
    case StartReconcile(k) =>
      && k in s.profiles && k !in s.workers && !s.profiles[k].deleting
      && var p := Serialized(s.profiles[k].(finalizer := true));
         && (s.profiles[k].finalizer || ProfileAccepted(s.profiles, p))
         && t == s.(profiles := if s.profiles[k].finalizer then s.profiles else s.profiles[k := p],
                    workers := s.workers[k := Finalized])
    case ListForLabelling(k) =>
      && k in s.workers && s.workers[k] == Finalized && k in s.profiles
      && t == s.(workers := s.workers[k := Labelling(s.profiles[k], s.namespaces)])
    case LabelNamespace(k, n, now, out) =>
      && k in s.workers && s.workers[k].Labelling?
      && var Labelling(p, listed) := s.workers[k];
         && n in listed && n in s.namespaces && s.namespaces[n] == listed[n] && AtMostOneKey(p)
         && var write := NamespaceWrite(s.profiles, p, n, listed[n], now);
            && write.Write? && MayDecide(s.profiles, n, write.labels, now, Admitted(out))
            && t == s.(namespaces := s.namespaces[n := out], workers := s.workers[k := Labelling(p, listed - {n})])
    case StartCleanup(k) =>
      && k in s.profiles && k !in s.workers && s.profiles[k].deleting && s.profiles[k].finalizer
      && t == s.(workers := s.workers[k := Cleaning(s.namespaces)])
    case CleanNamespace(k, n, now, out) =>
      && k in s.workers && s.workers[k].Cleaning?
      && var listed := s.workers[k].listed;
         && n in listed && Assigned(listed[n]) == Some(k) && n in s.namespaces && s.namespaces[n] == listed[n]
         && MayDecide(s.profiles, n, WithoutProfile(listed[n]), now, Admitted(out))
         && t == s.(namespaces := s.namespaces[n := out], workers := s.workers[k := Cleaning(listed - {n})])
    case SkipNamespace(k, n) =>
      && k in s.workers && s.workers[k].Cleaning?
      && var listed := s.workers[k].listed;
         && n in listed && Assigned(listed[n]) != Some(k)
         && t == s.(workers := s.workers[k := Cleaning(listed - {n})])
    case RemoveFinalizer(k) =>
      && k in s.workers && s.workers[k] == Cleaning(map[]) && k in s.profiles && s.profiles[k].deleting
      && ProfileAccepted(s.profiles, Serialized(s.profiles[k].(finalizer := false)))
      && t == s.(profiles := s.profiles - {k}, workers := s.workers - {k})
    case StopWorker(k) => t == s.(workers := s.workers - {k})
    case CreateNamespace(n, labels, now, out) =>
      && n !in s.namespaces && MayDecide(s.profiles, n, labels, now, Admitted(out))
      && t == s.(namespaces := s.namespaces[n := out])
    case RelabelNamespace(n, labels, now, out) =>
      && n in s.namespaces && MayDecide(s.profiles, n, labels, now, Admitted(out))
      && t == s.(namespaces := s.namespaces[n := out])
    case DeleteNamespace(n) => t == s.(namespaces := s.namespaces - {n})
  }

  ghost predicate Carries(s: State, k: ProfileKey) {
    exists n :: n in s.namespaces && Assigned(s.namespaces[n]) == Some(k)
  }

  /**
   What the protocol asks of its users: profile names without a dot, no profile deleted without its finalizer
   while a namespace still carries it, and no reserved label written by hand.
   */
  ghost predicate Disciplined(s: State, a: Action) {
    match a
    case CreateProfile(p) => DotFree(p.key) && p.key != ProfileKey("", "")
    case RequestDelete(k) => k in s.profiles && !s.profiles[k].finalizer ==> !Carries(s, k)
    case CreateNamespace(_, labels, _, _) => PROFILE_LABEL !in labels
    case RelabelNamespace(n, labels, _, _) =>
      PROFILE_LABEL in labels && n in s.namespaces ==>
        PROFILE_LABEL in s.namespaces[n] && labels[PROFILE_LABEL] == s.namespaces[n][PROFILE_LABEL]
    case _ => true
  }

  // ---------------------------------------------------------------- the invariant

  /** Every profile label names a stored profile. */
  ghost predicate NoDangling(s: State) {
    forall n :: n in s.namespaces && Assigned(s.namespaces[n]).Some? ==> Assigned(s.namespaces[n]).value in s.profiles
  }

  ghost predicate NamesParse(profiles: Profiles) {
    forall k :: k in profiles ==> DotFree(k) && k != ProfileKey("", "")
  }

  /** A cleanup in progress still has on its list every namespace that carries the profile. */
  ghost predicate Covered(s: State, k: ProfileKey, listed: map<string, Labels>) {
    forall n :: n in s.namespaces && Assigned(s.namespaces[n]) == Some(k) ==>
      n in listed && Assigned(listed[n]) == Some(k)
  }

  ghost predicate WorkerSound(s: State, k: ProfileKey, w: Worker) {
    && k in s.profiles && s.profiles[k].finalizer
    && match w
       case Finalized => true
       case Labelling(p, _) => p.key == k
       case Cleaning(listed) => s.profiles[k].deleting && Covered(s, k, listed)
  }

  ghost predicate Inv(s: State) {
    && SelectorInvariant(s.profiles)
    && NamesParse(s.profiles)
    && NoDangling(s)
    && forall k :: k in s.workers ==> WorkerSound(s, k, s.workers[k])
  }

  // ---------------------------------------------------------------- which labels a write can leave

  /** Admission leaves the label of a live profile, the label it was given, or none. */
  ghost predicate FromLiveOrIncoming(profiles: Profiles, labels: Labels, out: Labels) {
    Assigned(out).Some? ==>
      && Assigned(out).value in profiles
      && (!profiles[Assigned(out).value].deleting || Assigned(out) == Assigned(labels))
  }

  /** `k` is the visited profile, if it is live, or the stored profile the label names. */
  ghost predicate MaySet(profiles: Profiles, p: QuotaProfile, labels: Labels, k: ProfileKey) {
    (k == p.key && !p.deleting) || (Assigned(labels) == Some(k) && k in profiles)
  }

  /** A visit leaves the labels alone or sets one of these two profiles. */
  lemma VisitShape(profiles: Profiles, p: QuotaProfile, name: string, labels: Labels, matched: bool, now: string)
    requires KeysAgree(profiles) && AtMostOneKey(p)
    ensures match Visit(profiles, p, name, labels, matched, now)
            case Continue(labels', matched') =>
              || (labels' == labels && matched' == matched)
              || (matched' && exists k :: MaySet(profiles, p, labels, k) && labels' == WithProfile(labels, k, now))
            case Done(labels') => !p.deleting && labels' == WithProfile(labels, p.key, now)
            case Failed(_) => true
  {
    var visit := Visit(profiles, p, name, labels, matched, now);
    if visit.Continue? && !(visit.labels == labels && visit.matched == matched) {
      if PROFILE_LABEL !in labels || SplitProfileID(labels[PROFILE_LABEL]) == p.key {
        assert MaySet(profiles, p, labels, p.key);
      } else {
        assert MaySet(profiles, p, labels, Resolved(profiles, p, labels).value);
      }
    }
  }

  lemma SetAssignment(profiles: Profiles, p: QuotaProfile, labels: Labels, k: ProfileKey, now: string)
    requires NamesParse(profiles) && p.key in profiles && profiles[p.key] == p && MaySet(profiles, p, labels, k)
    ensures FromLiveOrIncoming(profiles, labels, WithProfile(labels, k, now))
    ensures Assigned(WithProfile(labels, k, now)) == Some(k)
  {
    AssignedWithProfile(labels, k, now);
  }

  lemma {:induction false} FoldAssignment(profiles: Profiles, s: seq<QuotaProfile>, i: nat, name: string,
                                          labels: Labels, matched: bool, now: string)
    requires KeysAgree(profiles) && NamesParse(profiles) && Listing(s, profiles) && i <= |s|
    requires forall p :: p in s ==> AtMostOneKey(p)
    requires matched ==> Resolves(profiles, labels)
    ensures var decision := Fold(profiles, s, i, name, labels, matched, now);
            decision.Admitted? ==> FromLiveOrIncoming(profiles, labels, decision.labels)
    decreases |s| - i
  {
    Listed(s, profiles);
    if i < |s| {
      assert s[i] in s;
      VisitShape(profiles, s[i], name, labels, matched, now);
      match Visit(profiles, s[i], name, labels, matched, now)
      case Continue(labels', matched') =>
        if labels' == labels && matched' == matched {
          FoldAssignment(profiles, s, i + 1, name, labels, matched, now);
        } else {
          var k :| MaySet(profiles, s[i], labels, k) && labels' == WithProfile(labels, k, now);
          SetAssignment(profiles, s[i], labels, k, now);
          FoldAssignment(profiles, s, i + 1, name, labels', matched', now);
        }
      case Done(labels') => SetAssignment(profiles, s[i], labels, s[i].key, now);
      case Failed(_) =>
    }
  }

  lemma AdmittedAssignment(profiles: Profiles, name: string, labels: Labels, now: string, out: Labels)
    requires KeysAgree(profiles) && NamesParse(profiles) && MayDecide(profiles, name, labels, now, Admitted(out))
    ensures FromLiveOrIncoming(profiles, labels, out)
  {
    var s :| SortedListing(s, profiles) && (forall p :: p in s ==> AtMostOneKey(p))
             && Decision(profiles, s, name, labels, now) == Admitted(out);
    FoldAssignment(profiles, s, 0, name, labels, false, now);
  }

  /** The controller sends its own profile or the stored profile the label names already. */
  lemma WrittenAssignment(profiles: Profiles, p: QuotaProfile, name: string, labels: Labels, now: string)
    requires KeysAgree(profiles) && NamesParse(profiles) && DotFree(p.key) && AtMostOneKey(p)
    ensures var write := NamespaceWrite(profiles, p, name, labels, now);
            write.Write? ==>
              Assigned(write.labels) == Some(p.key)
              || (&& Assigned(write.labels) == Assigned(labels)
                  && Assigned(labels).Some? && Assigned(labels).value in profiles)
  {
    var chosen := Chosen(profiles, p, name, labels);
    AssignedWithProfile(labels, p.key, now);
    if chosen != p.key {
      AssignedWithProfile(labels, chosen, now);
    }
  }

  // ---------------------------------------------------------------- every step keeps the invariant

  lemma WorkerSurvivesWrite(s: State, n: string, labels: Labels, out: Labels, k: ProfileKey)
    requires FromLiveOrIncoming(s.profiles, labels, out)
    requires k in s.workers && WorkerSound(s, k, s.workers[k])
    requires s.workers[k].Cleaning? && Assigned(labels) == Some(k) ==>
               n in s.namespaces && Assigned(s.namespaces[n]) == Some(k)
    ensures WorkerSound(s.(namespaces := s.namespaces[n := out]), k, s.workers[k])
  {
  }

  /** A namespace write whose incoming label does not hand a profile under cleanup to another namespace. */
  lemma NamespaceWriteKeeps(s: State, n: string, labels: Labels, now: string, out: Labels)
    requires Inv(s) && MayDecide(s.profiles, n, labels, now, Admitted(out))
    requires forall k :: k in s.workers && s.workers[k].Cleaning? && Assigned(labels) == Some(k) ==>
               n in s.namespaces && Assigned(s.namespaces[n]) == Some(k)
    ensures Inv(s.(namespaces := s.namespaces[n := out]))
  {
    AdmittedAssignment(s.profiles, n, labels, now, out);
    var t := s.(namespaces := s.namespaces[n := out]);
    forall k | k in t.workers ensures WorkerSound(t, k, t.workers[k]) {
      WorkerSurvivesWrite(s, n, labels, out, k);
    }
  }

  lemma AcceptedKeeps(profiles: Profiles, p: QuotaProfile)
    requires SelectorInvariant(profiles) && ProfileAccepted(profiles, p)
    ensures SelectorInvariant(profiles[p.key := p])
  {
    var stored :| Listing(stored, profiles) && (forall q :: q in stored ==> AtMostOneKey(q))
                  && Validate(p, stored) == Accepted;
    AcceptedWritesKeepInvariant(profiles, p, stored);
  }

  /** A profile write that neither unsets a finalizer nor a deletion timestamp. */
  lemma ProfileWriteKeeps(s: State, p: QuotaProfile)
    requires Inv(s) && SelectorInvariant(s.profiles[p.key := p])
    requires DotFree(p.key) && p.key != ProfileKey("", "")
    requires p.key in s.profiles ==>
               (s.profiles[p.key].finalizer ==> p.finalizer) && (s.profiles[p.key].deleting ==> p.deleting)
    ensures Inv(s.(profiles := s.profiles[p.key := p]))
  {
    var t := s.(profiles := s.profiles[p.key := p]);
    forall k | k in t.workers ensures WorkerSound(t, k, t.workers[k]) {
      assert WorkerSound(s, k, s.workers[k]);
    }
  }

  /** Removing a profile that no namespace carries, with its worker. */
  lemma RemovalKeeps(s: State, k: ProfileKey)
    requires Inv(s) && !Carries(s, k)
    ensures Inv(s.(profiles := s.profiles - {k}, workers := s.workers - {k}))
  {
    RemovalKeepsInvariant(s.profiles, k);
    var t := s.(profiles := s.profiles - {k}, workers := s.workers - {k});
    forall l | l in t.workers ensures WorkerSound(t, l, t.workers[l]) {
      assert WorkerSound(s, l, s.workers[l]);
    }
    forall n | n in t.namespaces && Assigned(t.namespaces[n]).Some?
      ensures Assigned(t.namespaces[n]).value in t.profiles
    {
      assert Assigned(s.namespaces[n]) != Some(k);
    }
  }

  lemma WorkerChangeKeeps(s: State, k: ProfileKey, w: Worker)
    requires Inv(s) && WorkerSound(s, k, w)
    ensures Inv(s.(workers := s.workers[k := w]))
  {
    var t := s.(workers := s.workers[k := w]);
    forall l | l in t.workers ensures WorkerSound(t, l, t.workers[l]) {
      assert l != k ==> WorkerSound(s, l, s.workers[l]);
    }
  }

  lemma WorkerStopKeeps(s: State, k: ProfileKey)
    requires Inv(s)
    ensures Inv(s.(workers := s.workers - {k}))
  {
    var t := s.(workers := s.workers - {k});
    forall l | l in t.workers ensures WorkerSound(t, l, t.workers[l]) {
      assert WorkerSound(s, l, s.workers[l]);
    }
  }

  lemma CleanStepKeeps(s: State, a: Action, t: State)
    requires Inv(s) && Next(s, a, t) && (a.CleanNamespace? || a.SkipNamespace?)
    ensures Inv(t)
  {
    var k, n := a.key, a.name;
    var listed := s.workers[k].listed;
    assert WorkerSound(s, k, s.workers[k]);
    if a.SkipNamespace? {
      WorkerChangeKeeps(s, k, Cleaning(listed - {n}));
    } else {
      var stripped := WithoutProfile(listed[n]);
      NamespaceWriteKeeps(s, n, stripped, a.now, a.out);
      var u := s.(namespaces := s.namespaces[n := a.out]);
      AdmittedAssignment(s.profiles, n, stripped, a.now, a.out);
      assert Assigned(a.out) != Some(k);
      assert WorkerSound(u, k, Cleaning(listed - {n}));
      WorkerChangeKeeps(u, k, Cleaning(listed - {n}));
    }
  }

  lemma LabelStepKeeps(s: State, a: Action, t: State)
    requires Inv(s) && Next(s, a, t) && a.LabelNamespace?
    ensures Inv(t)
  {
    var k, n := a.key, a.name;
    var Labelling(p, listed) := s.workers[k];
    assert WorkerSound(s, k, s.workers[k]);
    WrittenAssignment(s.profiles, p, n, listed[n], a.now);
    var write := NamespaceWrite(s.profiles, p, n, listed[n], a.now);
    NamespaceWriteKeeps(s, n, write.labels, a.now, a.out);
    WorkerChangeKeeps(s.(namespaces := s.namespaces[n := a.out]), k, Labelling(p, listed - {n}));
  }

  lemma AcceptedStepKeeps(s: State, a: Action, t: State)
    requires Inv(s) && Next(s, a, t) && Disciplined(s, a) && (a.CreateProfile? || a.UpdateSpec?)
    ensures Inv(t)
  {
    var p := if a.CreateProfile? then a.profile else s.profiles[a.key].(spec := a.spec);
    AcceptedKeeps(s.profiles, p);
    ProfileWriteKeeps(s, p);
  }

  lemma RequestDeleteKeeps(s: State, k: ProfileKey, t: State)
    requires Inv(s) && Next(s, RequestDelete(k), t) && Disciplined(s, RequestDelete(k))
    ensures Inv(t)
  {
    if s.profiles[k].finalizer {
      DeletionMarkKeeps(s.profiles, k);
      ProfileWriteKeeps(s, s.profiles[k].(deleting := true));
    } else {
      assert forall l :: l in s.workers ==> WorkerSound(s, l, s.workers[l]);
      RemovalKeeps(s, k);
      assert s.workers - {k} == s.workers;
    }
  }

  lemma StartReconcileKeeps(s: State, k: ProfileKey, t: State)
    requires Inv(s) && Next(s, StartReconcile(k), t)
    ensures Inv(t)
  {
    if s.profiles[k].finalizer {
      WorkerChangeKeeps(s, k, Finalized);
    } else {
      var p := Serialized(s.profiles[k].(finalizer := true));
      AcceptedKeeps(s.profiles, p);
      ProfileWriteKeeps(s, p);
      WorkerChangeKeeps(s.(profiles := s.profiles[k := p]), k, Finalized);
    }
  }

  lemma RemoveFinalizerKeeps(s: State, k: ProfileKey, t: State)
    requires Inv(s) && Next(s, RemoveFinalizer(k), t)
    ensures Inv(t)
  {
    assert WorkerSound(s, k, s.workers[k]);
    RemovalKeeps(s, k);
  }

  /** Steps that only change which reconciles are in progress. */
  lemma WorkerStepKeeps(s: State, a: Action, t: State)
    requires Inv(s) && Next(s, a, t) && (a.ListForLabelling? || a.StartCleanup? || a.StopWorker?)
    ensures Inv(t)
  {
    var k := a.key;
    if a.ListForLabelling? {
      assert WorkerSound(s, k, s.workers[k]);
      WorkerChangeKeeps(s, k, Labelling(s.profiles[k], s.namespaces));
    } else if a.StartCleanup? {
      WorkerChangeKeeps(s, k, Cleaning(s.namespaces));
    } else {
      WorkerStopKeeps(s, k);
    }
  }

  /** Namespace writes and deletions by users. */
  lemma UserStepKeeps(s: State, a: Action, t: State)
    requires Inv(s) && Next(s, a, t) && Disciplined(s, a)
    requires a.CreateNamespace? || a.RelabelNamespace? || a.DeleteNamespace?
    ensures Inv(t)
  {
    if a.DeleteNamespace? {
      forall k | k in t.workers ensures WorkerSound(t, k, t.workers[k]) {
        assert WorkerSound(s, k, s.workers[k]);
      }
    } else {
      NamespaceWriteKeeps(s, a.name, a.labels, a.now, a.out);
    }
  }

  lemma DeletionMarkKeeps(profiles: Profiles, k: ProfileKey)
    requires SelectorInvariant(profiles) && k in profiles
    ensures SelectorInvariant(profiles[k := profiles[k].(deleting := true)])
  {
    var after := profiles[k := profiles[k].(deleting := true)];
    forall l | l in after ensures WellFormed(after[l]) {
      assert WellFormed(profiles[l]);
    }
    forall l, m | l in after && m in after && l != m ensures Compatible(after[l], after[m]) {
      assert Compatible(profiles[l], profiles[m]);
    }
  }

  lemma ProfileStepKeeps(s: State, a: Action, t: State)
    requires Inv(s) && Next(s, a, t) && Disciplined(s, a)
    requires a.CreateProfile? || a.UpdateSpec? || a.RequestDelete? || a.StartReconcile? || a.RemoveFinalizer?
    ensures Inv(t)
  {
    match a
    case RequestDelete(k) => RequestDeleteKeeps(s, k, t);
    case StartReconcile(k) => StartReconcileKeeps(s, k, t);
    case RemoveFinalizer(k) => RemoveFinalizerKeeps(s, k, t);
    case _ => AcceptedStepKeeps(s, a, t);
  }

  /** The inductive step: any disciplined step from a good state leads to a good state. */
  lemma StepKeepsInvariant(s: State, a: Action, t: State)
    requires Inv(s) && Next(s, a, t) && Disciplined(s, a)
    ensures Inv(t)
  {
    if a.CreateProfile? || a.UpdateSpec? || a.RequestDelete? || a.StartReconcile? || a.RemoveFinalizer? {
      ProfileStepKeeps(s, a, t);
    } else if a.CreateNamespace? || a.RelabelNamespace? || a.DeleteNamespace? {
      UserStepKeeps(s, a, t);
    } else if a.LabelNamespace? {
      LabelStepKeeps(s, a, t);
    } else if a.CleanNamespace? || a.SkipNamespace? {
      CleanStepKeeps(s, a, t);
    } else {
      WorkerStepKeeps(s, a, t);
    }
  }

  // ---------------------------------------------------------------- main results over whole runs

  /** A run from the empty cluster: any interleaving of disciplined steps. */
  ghost predicate Run(states: seq<State>, actions: seq<Action>) {
    && |states| == |actions| + 1 && states[0] == INITIAL
    && forall i :: 0 <= i < |actions| ==>
       Next(states[i], actions[i], states[i + 1]) && Disciplined(states[i], actions[i])
  }

  /** In every state of every run the stored selectors are sound and every profile label names a stored profile. */
  lemma {:induction false} InvariantOverRuns(states: seq<State>, actions: seq<Action>, i: nat)
    requires Run(states, actions) && i < |states|
    ensures Inv(states[i])
  {
    if i > 0 {
      InvariantOverRuns(states, actions, i - 1);
      StepKeepsInvariant(states[i - 1], actions[i - 1], states[i]);
    }
  }

  /** When a finalizer is removed no namespace carries the profile, however the cleanup was interleaved. */
  lemma FinalizerRemovalIsSafe(states: seq<State>, actions: seq<Action>, i: nat)
    requires Run(states, actions) && i < |actions| && actions[i].RemoveFinalizer?
    ensures !Carries(states[i], actions[i].key) && !Carries(states[i + 1], actions[i].key)
    ensures NoDangling(states[i + 1])
  {
    InvariantOverRuns(states, actions, i);
    InvariantOverRuns(states, actions, i + 1);
    var s, k := states[i], actions[i].key;
    assert WorkerSound(s, k, s.workers[k]);
  }

  /**
   In every state of every run whose selectors are regular, a namespace re-sent as it is stored is admitted,
   and it ends on the documented winner exactly when its own label does not shadow it.
   */
  lemma ReadmissionOverRuns(states: seq<State>, actions: seq<Action>, i: nat, n: string, now: string, out: Admission)
    requires Run(states, actions) && i < |states| && n in states[i].namespaces
    requires Selectable(states[i].profiles)
    requires MayDecide(states[i].profiles, n, states[i].namespaces[n], now, out)
    ensures out.Admitted?
    ensures Documented(states[i].profiles, n, states[i].namespaces[n], Assigned(out.labels))
            <==> !Shadowed(states[i].profiles, n, states[i].namespaces[n])
  {
    InvariantOverRuns(states, actions, i);
    var profiles, labels := states[i].profiles, states[i].namespaces[n];
    var s :| SortedListing(s, profiles) && (forall p :: p in s ==> AtMostOneKey(p))
             && Decision(profiles, s, n, labels, now) == out;
    AdmissionOutcome(profiles, s, n, labels, now);
  }

  /**
   In every state of every run the finalizer writes of a stored profile are admitted, except for an empty label
   selector.
   */
  lemma FinalizerWritesOverRuns(states: seq<State>, actions: seq<Action>, i: nat, k: ProfileKey, finalizer: bool,
                                stored: seq<QuotaProfile>)
    requires Run(states, actions) && i < |states| && k in states[i].profiles && Listing(stored, states[i].profiles)
    ensures forall q :: q in stored ==> AtMostOneKey(q)
    ensures Validate(Serialized(states[i].profiles[k].(finalizer := finalizer)), stored) == Accepted
            <==> !EmptyLabelSelector(states[i].profiles[k])
  {
    InvariantOverRuns(states, actions, i);
    ProtocolWritesAdmitted(states[i].profiles, k, finalizer, stored);
  }

  /**
   The condition on deletion is exact: from a good state the label dangles if and only if the deletion was
   undisciplined.
   */
  lemma DeletionDisciplineIsExact(s: State, k: ProfileKey, t: State)
    requires Inv(s) && Next(s, RequestDelete(k), t)
    ensures NoDangling(t) <==> Disciplined(s, RequestDelete(k))
  {
    if Disciplined(s, RequestDelete(k)) {
      StepKeepsInvariant(s, RequestDelete(k), t);
    } else {
      var n :| n in s.namespaces && Assigned(s.namespaces[n]) == Some(k);
      assert n in t.namespaces && Assigned(t.namespaces[n]).value !in t.profiles;
    }
  }

  /** A profile that selects one namespace by name, as it is created. */
  function NamedProfile(namespace': string): QuotaProfile {
    QuotaProfile(ProfileKey("o", "a"), 1, false, false,
                 QuotaProfileSpec(NamespaceSelector(None, Some(namespace')), 0, [], []))
  }

  lemma NamedProfileAdmission(p: QuotaProfile, name: string, labels: Labels, now: string)
    requires LiveName(p, name) && AtMostOneKey(p)
    ensures MayDecide(map[p.key := p], name, labels, now, Admitted(WithProfile(labels, p.key, now)))
  {
    var profiles := map[p.key := p];
    assert profiles.Values == {p};
    assert SortedListing([p], profiles);
    assert Decision(profiles, [p], name, labels, now) == Admitted(WithProfile(labels, p.key, now));
  }

  lemma FirstNamedProfileAccepted(name: string)
    ensures ProfileAccepted(map[], NamedProfile(name))
  {
    assert Listing([], map[]) && Validate(NamedProfile(name), []) == Accepted;
  }

  /**
   A run that breaks the condition: a profile is deleted before its finalizer is there, after admission has used
   it.
   */
  lemma DanglingRun(name: string, now: string)
    ensures var p := NamedProfile(name);
            var out := WithProfile(map[], p.key, now);
            var created := State(map[p.key := p], map[], map[]);
            var labelled := State(map[p.key := p], map[name := out], map[]);
            var deleted := State(map[], map[name := out], map[]);
            && Next(INITIAL, CreateProfile(p), created)
            && Next(created, CreateNamespace(name, map[], now, out), labelled)
            && Next(labelled, RequestDelete(p.key), deleted)
            && !NoDangling(deleted)
  {
    var p := NamedProfile(name);
    var out := WithProfile(map[], p.key, now);
    FirstNamedProfileAccepted(name);
    NamedProfileAdmission(p, name, map[], now);
    assert map[p.key := p] - {p.key} == map[];
    AssignedWithProfile(map[], p.key, now);
    var deleted := State(map[], map[name := out], map[]);
    assert Assigned(deleted.namespaces[name]) == Some(p.key);
  }

  // ---------------------------------------------------------------- the controller's loops as schedules

  /** Some disciplined step leads from `s` to `t`. */
  ghost predicate Step(s: State, t: State) {
    exists a :: Next(s, a, t) && Disciplined(s, a)
  }

  ghost predicate Reaches(s: State, t: State) {
    Reachability.Reaches(Step, s, t)
  }

  lemma ByStep(s: State, a: Action, t: State)
    requires Next(s, a, t) && Disciplined(s, a)
    ensures Reaches(s, t)
  {
    assert Step(s, t);
    Reachability.ReachesStep(Step, s, t);
  }

  lemma Through(s: State, u: State, t: State)
    requires Reaches(s, u) && Reaches(u, t)
    ensures Reaches(s, t)
  {
    Reachability.ReachesThrough(Step, s, u, t);
  }

  /** The namespaces once those in `todo` have their new labels. */
  ghost function Replaced(namespaces: map<string, Labels>, todo: set<string>, after: map<string, Labels>)
    : map<string, Labels>
    requires todo <= after.Keys
  {
    map n | n in namespaces :: if n in todo then after[n] else namespaces[n]
  }

  lemma ReplacedStep(namespaces: map<string, Labels>, todo: set<string>, after: map<string, Labels>, n: string)
    requires todo <= after.Keys && n in todo && n in namespaces
    ensures Replaced(namespaces[n := after[n]], todo - {n}, after) == Replaced(namespaces, todo, after)
  {
  }

  lemma CleanupStep(s: State, k: ProfileKey, listed: map<string, Labels>, n: string, after: Labels, now: string)
    requires k in s.workers && s.workers[k] == Cleaning(listed) && n in listed && n in s.namespaces
             && s.namespaces[n] == listed[n]
    requires Cleaned(s.profiles, k, n, s.namespaces[n], now, after)
    ensures Reaches(s, State(s.profiles, s.namespaces[n := after], s.workers[k := Cleaning(listed - {n})]))
  {
    var u := State(s.profiles, s.namespaces[n := after], s.workers[k := Cleaning(listed - {n})]);
    if Assigned(listed[n]) == Some(k) {
      ByStep(s, CleanNamespace(k, n, now, after), u);
    } else {
      assert s.namespaces[n := after] == s.namespaces;
      ByStep(s, SkipNamespace(k, n), u);
    }
  }

  lemma {:induction false} CleanupLoop(profiles: Profiles, namespaces: map<string, Labels>,
                                       workers: map<ProfileKey, Worker>,
                                       k: ProfileKey, listed: map<string, Labels>, after: map<string, Labels>,
                                       now: string)
    requires listed.Keys <= namespaces.Keys && listed.Keys <= after.Keys
    requires forall n :: n in listed ==>
               namespaces[n] == listed[n] && Cleaned(profiles, k, n, namespaces[n], now, after[n])
    ensures Reaches(State(profiles, namespaces, workers[k := Cleaning(listed)]),
                    State(profiles, Replaced(namespaces, listed.Keys, after), workers[k := Cleaning(map[])]))
    decreases |listed|
  {
    var s := State(profiles, namespaces, workers[k := Cleaning(listed)]);
    if listed == map[] {
      assert Replaced(namespaces, {}, after) == namespaces;
      Reachability.ReachesSelf(Step, s);
    } else {
      var n :| n in listed;
      var rest := listed - {n};
      assert rest.Keys == listed.Keys - {n} && |rest.Keys| < |listed.Keys|;
      CleanupStep(s, k, listed, n, after[n], now);
      assert s.workers[k := Cleaning(rest)] == workers[k := Cleaning(rest)];
      CleanupLoop(profiles, namespaces[n := after[n]], workers, k, rest, after, now);
      ReplacedStep(namespaces, listed.Keys, after, n);
      Through(s, State(profiles, namespaces[n := after[n]], workers[k := Cleaning(rest)]),
              State(profiles, Replaced(namespaces, listed.Keys, after), workers[k := Cleaning(map[])]));
    }
  }

  /**
   A successful `HandleDeletion` is one schedule of the protocol: list, clean or skip each namespace, remove the
   finalizer.
   */
  lemma HandleDeletionIsASchedule(s: State, k: ProfileKey, now: string, after: map<string, Labels>)
    requires SelectorInvariant(s.profiles) && k in s.profiles && k !in s.workers
    requires s.profiles[k].deleting && s.profiles[k].finalizer && !EmptyLabelSelector(s.profiles[k])
    requires after.Keys == s.namespaces.Keys
    requires forall n :: n in s.namespaces ==> Cleaned(s.profiles, k, n, s.namespaces[n], now, after[n])
    ensures Reaches(s, State(s.profiles - {k}, after, s.workers))
  {
    var listed := State(s.profiles, s.namespaces, s.workers[k := Cleaning(s.namespaces)]);
    var cleaned := State(s.profiles, after, s.workers[k := Cleaning(map[])]);
    var done := State(s.profiles - {k}, after, s.workers);
    ByStep(s, StartCleanup(k), listed);
    CleanupLoop(s.profiles, s.namespaces, s.workers, k, s.namespaces, after, now);
    assert Replaced(s.namespaces, s.namespaces.Keys, after) == after;
    FinalizerWriteAccepted(s.profiles, k, false);
    assert cleaned.workers - {k} == s.workers;
    ByStep(cleaned, RemoveFinalizer(k), done);
    Through(s, listed, cleaned);
    Through(s, cleaned, done);
  }

  lemma {:induction false} SomeListing(values: set<QuotaProfile>) returns (s: seq<QuotaProfile>)
    ensures multiset(s) == multiset(values)
  {
    if values == {} {
      s := [];
    } else {
      var p :| p in values;
      var rest := SomeListing(values - {p});
      s := rest + [p];
    }
  }

  lemma FinalizerWriteAccepted(profiles: Profiles, k: ProfileKey, finalizer: bool)
    requires SelectorInvariant(profiles) && k in profiles && !EmptyLabelSelector(profiles[k])
    ensures ProfileAccepted(profiles, Serialized(profiles[k].(finalizer := finalizer)))
  {
    var stored := SomeListing(profiles.Values);
    ProtocolWritesAdmitted(profiles, k, finalizer, stored);
  }

  lemma LabellingStep(s: State, k: ProfileKey, p: QuotaProfile, listed: map<string, Labels>, n: string, after: Labels,
                      now: string)
    requires k in s.workers && s.workers[k] == Labelling(p, listed) && AtMostOneKey(p)
    requires n in listed && n in s.namespaces && s.namespaces[n] == listed[n]
    requires Labelled(s.profiles, p, n, listed[n], now, after) && after != listed[n]
    ensures Reaches(s, State(s.profiles, s.namespaces[n := after], s.workers[k := Labelling(p, listed - {n})]))
  {
    ByStep(s, LabelNamespace(k, n, now, after),
           State(s.profiles, s.namespaces[n := after], s.workers[k := Labelling(p, listed - {n})]));
  }

  /**
   What is left of a labelling pass: the namespaces in `todo` are unchanged since the listing and have their
   outcome in `after`.
   */
  ghost predicate Plan(profiles: Profiles, p: QuotaProfile, namespaces: map<string, Labels>,
                       listed: map<string, Labels>, todo: set<string>, after: map<string, Labels>, now: string)
  {
    && AtMostOneKey(p) && todo <= listed.Keys && todo <= namespaces.Keys && todo <= after.Keys
    && forall n :: n in todo ==> namespaces[n] == listed[n] && Labelled(profiles, p, n, listed[n], now, after[n])
  }

  lemma PlanRest(profiles: Profiles, p: QuotaProfile, namespaces: map<string, Labels>, listed: map<string, Labels>,
                 todo: set<string>, after: map<string, Labels>, now: string, n: string)
    requires Plan(profiles, p, namespaces, listed, todo, after, now) && n in todo
    ensures Plan(profiles, p, namespaces, listed, todo - {n}, after, now)
    ensures Plan(profiles, p, namespaces[n := after[n]], listed - {n}, todo - {n}, after, now)
  {
  }

  lemma PlanStep(profiles: Profiles, p: QuotaProfile, namespaces: map<string, Labels>, listed: map<string, Labels>,
                 todo: set<string>, after: map<string, Labels>, now: string, n: string,
                 workers: map<ProfileKey, Worker>, k: ProfileKey)
    requires Plan(profiles, p, namespaces, listed, todo, after, now) && n in todo && after[n] != namespaces[n]
    ensures Reaches(State(profiles, namespaces, workers[k := Labelling(p, listed)]),
                    State(profiles, namespaces[n := after[n]], workers[k := Labelling(p, listed - {n})]))
  {
    var s := State(profiles, namespaces, workers[k := Labelling(p, listed)]);
    LabellingStep(s, k, p, listed, n, after[n], now);
    assert s.workers[k := Labelling(p, listed - {n})] == workers[k := Labelling(p, listed - {n})];
  }

  lemma PlanDone(profiles: Profiles, namespaces: map<string, Labels>, workers: map<ProfileKey, Worker>, k: ProfileKey,
                 w: Worker)
    ensures Reaches(State(profiles, namespaces, workers[k := w]), State(profiles, namespaces, workers - {k}))
  {
    var s := State(profiles, namespaces, workers[k := w]);
    assert s.workers - {k} == workers - {k};
    ByStep(s, StopWorker(k), State(profiles, namespaces, workers - {k}));
  }

  lemma {:induction false} LabellingLoop(profiles: Profiles, namespaces: map<string, Labels>,
                                         workers: map<ProfileKey, Worker>, k: ProfileKey,
                                         p: QuotaProfile, listed: map<string, Labels>, todo: set<string>,
                                         after: map<string, Labels>, now: string)
    requires Plan(profiles, p, namespaces, listed, todo, after, now)
    ensures Reaches(State(profiles, namespaces, workers[k := Labelling(p, listed)]),
                    State(profiles, Replaced(namespaces, todo, after), workers - {k}))
    decreases |todo|
  {
    if todo == {} {
      assert Replaced(namespaces, {}, after) == namespaces;
      PlanDone(profiles, namespaces, workers, k, Labelling(p, listed));
    } else {
      var n :| n in todo;
      PlanRest(profiles, p, namespaces, listed, todo, after, now, n);
      ReplacedStep(namespaces, todo, after, n);
      var written := namespaces[n := after[n]];
      if after[n] == namespaces[n] {
        assert written == namespaces;
        LabellingLoop(profiles, namespaces, workers, k, p, listed, todo - {n}, after, now);
      } else {
        PlanStep(profiles, p, namespaces, listed, todo, after, now, n, workers, k);
        LabellingLoop(profiles, written, workers, k, p, listed - {n}, todo - {n}, after, now);
        Through(State(profiles, namespaces, workers[k := Labelling(p, listed)]),
                State(profiles, written, workers[k := Labelling(p, listed - {n})]),
                State(profiles, Replaced(namespaces, todo, after), workers - {k}));
      }
    }
  }

  /** The finalizer is written, then the namespaces are listed. */
  lemma LabellingStarts(s: State, k: ProfileKey)
    requires SelectorInvariant(s.profiles) && k in s.profiles && k !in s.workers && !s.profiles[k].deleting
    requires s.profiles[k].finalizer || !EmptyLabelSelector(s.profiles[k])
    ensures var p := s.profiles[k].(finalizer := true);
            Reaches(s, State(s.profiles[k := p], s.namespaces, s.workers[k := Labelling(p, s.namespaces)]))
  {
    var p := s.profiles[k].(finalizer := true);
    var started := State(s.profiles[k := p], s.namespaces, s.workers[k := Finalized]);
    var listed := State(s.profiles[k := p], s.namespaces, s.workers[k := Labelling(p, s.namespaces)]);
    if s.profiles[k].finalizer {
      assert s.profiles[k := p] == s.profiles;
    } else {
      FinalizerWriteAccepted(s.profiles, k, true);
    }
    ByStep(s, StartReconcile(k), started);
    assert started.workers[k := Labelling(p, s.namespaces)] == listed.workers;
    ByStep(started, ListForLabelling(k), listed);
    Through(s, started, listed);
  }

  /**
   A successful `Reconcile` of a live profile is one schedule too: finalizer, listing, one write per matching
   namespace.
   */
  lemma ReconcileIsASchedule(s: State, k: ProfileKey, now: string, after: map<string, Labels>)
    requires SelectorInvariant(s.profiles) && k in s.profiles && k !in s.workers && !s.profiles[k].deleting
    requires s.profiles[k].finalizer || !EmptyLabelSelector(s.profiles[k])
    requires after.Keys == s.namespaces.Keys
    requires var p := s.profiles[k].(finalizer := true);
             AtMostOneKey(p)
             && forall n :: n in s.namespaces ==> Labelled(s.profiles[k := p], p, n, s.namespaces[n], now, after[n])
    ensures Reaches(s, State(s.profiles[k := s.profiles[k].(finalizer := true)], after, s.workers))
  {
    var p := s.profiles[k].(finalizer := true);
    var profiles := s.profiles[k := p];
    var listed := State(profiles, s.namespaces, s.workers[k := Labelling(p, s.namespaces)]);
    var done := State(profiles, after, s.workers);
    LabellingStarts(s, k);
    LabellingLoop(profiles, s.namespaces, s.workers, k, p, s.namespaces, s.namespaces.Keys, after, now);
    assert s.workers - {k} == s.workers;
    assert Replaced(s.namespaces, s.namespaces.Keys, after) == after;
    Through(s, listed, done);
  }
}
