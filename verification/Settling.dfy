/**
 What the label stored on a namespace is in the course of a run: right after a write, and while controllers
 keep working on profiles and namespaces that nobody else changes.
 */
module Settling {
  import opened Strings
  import opened Api
  import opened NamespaceAdmission
  import opened ProfileController
  import opened Protocol

  /** The label stored on `n` is the documented winner among the stored profiles. */
  ghost predicate HasWinner(s: State, n: string)
    requires n in s.namespaces
  {
    Documented(s.profiles, n, s.namespaces[n], Assigned(s.namespaces[n]))
  }

  ghost predicate Overshadowed(s: State, n: string)
    requires n in s.namespaces
  {
    Shadowed(s.profiles, n, s.namespaces[n])
  }

  /** The label cannot be both the winner and shadow the winner. */
  lemma WinnerIsNotShadowed(s: State, n: string)
    requires n in s.namespaces && HasWinner(s, n)
    ensures !Overshadowed(s, n)
  {
  }

  // ---------------------------------------------------------------- after a write

  predicate LabelsTo(a: Action, n: string) { a.LabelNamespace? && a.name == n }

  predicate Cleans(a: Action, n: string) { a.CleanNamespace? && a.name == n }

  /** A user sends or deletes the namespace. */
  predicate UserTouches(a: Action, n: string) {
    (a.CreateNamespace? || a.RelabelNamespace? || a.DeleteNamespace?) && a.name == n
  }

  predicate Writes(a: Action, n: string) {
    LabelsTo(a, n) || Cleans(a, n) || (UserTouches(a, n) && !a.DeleteNamespace?)
  }

  predicate Touches(a: Action, n: string) { Writes(a, n) || UserTouches(a, n) }

  /** The labels a write sends to admission. */
  ghost function Offered(s: State, a: Action, t: State, n: string): Labels
    requires Next(s, a, t) && Writes(a, n)
  {
    match a
    case LabelNamespace(k, _, now, _) =>
      NamespaceWrite(s.profiles, s.workers[k].profile, n, s.namespaces[n], now).labels
    case CleanNamespace(_, _, _, _) => WithoutProfile(s.namespaces[n])
    case CreateNamespace(_, labels, _, _) => labels
    case RelabelNamespace(_, labels, _, _) => labels
  }

  lemma UntouchedStays(s: State, a: Action, t: State, n: string)
    requires Next(s, a, t) && !Touches(a, n)
    ensures n in t.namespaces <==> n in s.namespaces
    ensures n in s.namespaces ==> t.namespaces[n] == s.namespaces[n]
  {
  }

  lemma OfferedResolves(s: State, a: Action, t: State, n: string)
    requires Inv(s) && Next(s, a, t) && Disciplined(s, a) && Writes(a, n)
    ensures Resolves(s.profiles, Offered(s, a, t, n))
  {
    if a.LabelNamespace? {
      var Labelling(p, listed) := s.workers[a.key];
      assert WorkerSound(s, a.key, s.workers[a.key]);
      WrittenAssignment(s.profiles, p, n, listed[n], a.now);
    }
  }

  lemma WriteSettles(s: State, a: Action, t: State, n: string)
    requires Inv(s) && Next(s, a, t) && Disciplined(s, a) && Writes(a, n) && Selectable(s.profiles)
    ensures t.profiles == s.profiles && n in t.namespaces
    ensures HasWinner(t, n) <==> !Shadowed(s.profiles, n, Offered(s, a, t, n))
  {
    OfferedResolves(s, a, t, n);
    AdmittedOutcome(s.profiles, n, Offered(s, a, t, n), a.now, a.out);
  }

  lemma AdmittedOutcome(profiles: Profiles, name: string, offered: Labels, now: string, out: Labels)
    requires Regular(profiles) && Resolves(profiles, offered) && MayDecide(profiles, name, offered, now, Admitted(out))
    ensures Documented(profiles, name, out, Assigned(out)) <==> !Shadowed(profiles, name, offered)
  {
    var order :| SortedListing(order, profiles) && (forall p :: p in order ==> AtMostOneKey(p))
                 && Decision(profiles, order, name, offered, now) == Admitted(out);
    AdmissionOutcome(profiles, order, name, offered, now);
    OutcomeKeepsOthers(offered, Assigned(out), now);
    DocumentedAgrees(profiles, name, offered, out, Assigned(out));
  }

  lemma {:induction false} UntouchedOverRuns(states: seq<State>, actions: seq<Action>, x: nat, j: nat, n: string)
    requires Run(states, actions) && x <= j < |states|
    requires forall y :: x <= y < j ==> !Touches(actions[y], n)
    ensures n in states[j].namespaces <==> n in states[x].namespaces
    ensures n in states[x].namespaces ==> states[j].namespaces[n] == states[x].namespaces[n]
    decreases j
  {
    if x < j {
      UntouchedOverRuns(states, actions, x, j - 1, n);
      UntouchedStays(states[j - 1], actions[j - 1], states[j], n);
    }
  }

  /**
   In every run: from the last write of a namespace on, by whomever, and whatever happens to other namespaces,
   its stored label is the documented winner exactly when what was sent to admission was not shadowed, as long
   as the stored profiles are those of the time of the write.
   */
  lemma StoredLabelOverRuns(states: seq<State>, actions: seq<Action>, x: nat, j: nat, n: string)
    requires Run(states, actions) && x < j < |states| && Writes(actions[x], n)
    requires forall y :: x < y < j ==> !Touches(actions[y], n)
    requires Selectable(states[x].profiles) && states[j].profiles == states[x].profiles
    ensures n in states[j].namespaces
    ensures HasWinner(states[j], n)
            <==> !Shadowed(states[x].profiles, n, Offered(states[x], actions[x], states[x + 1], n))
  {
    InvariantOverRuns(states, actions, x);
    WriteSettles(states[x], actions[x], states[x + 1], n);
    UntouchedOverRuns(states, actions, x + 1, j, n);
  }

  // ---------------------------------------------------------------- while only controllers are at work

  /** Every labelling in progress works with the stored profile, which is live. */
  ghost predicate Current(s: State) {
    forall k :: k in s.workers && !s.workers[k].Cleaning? ==>
      && k in s.profiles && !s.profiles[k].deleting
      && (s.workers[k].Labelling? ==> s.workers[k].profile == s.profiles[k])
  }

  lemma CurrentStays(s: State, a: Action, t: State)
    requires Next(s, a, t) && t.profiles == s.profiles && Current(s)
    ensures Current(t)
  {
  }

  /** The step labels the namespace for a profile that it does not match and that outranks all that do. */
  ghost predicate Overreaches(s: State, a: Action, n: string) {
    && LabelsTo(a, n) && n in s.namespaces && a.key in s.profiles && ExactlyOneKey(s.profiles[a.key])
    && Overreach(s.profiles, a.key, n, s.namespaces[n])
  }

  /** Only a selector for the empty value can. */
  lemma OverreachesByEmptyValue(s: State, a: Action, n: string)
    requires Overreaches(s, a, n)
    ensures exists key :: s.profiles[a.key].spec.selector.matchLabels == Some(map[key := ""])
                          && key !in s.namespaces[n]
  {
    var selector := s.profiles[a.key].spec.selector.matchLabels.value;
    var key := FirstKey(selector);
    assert selector == map[key := ""];
  }

  /** A labelling write: the winner unless it was shadowed or is overreached, and then it is shadowed afterwards. */
  lemma LabelStepSettles(s: State, a: Action, t: State, n: string)
    requires Inv(s) && Next(s, a, t) && LabelsTo(a, n) && Selectable(s.profiles) && Current(s)
    ensures n in s.namespaces && n in t.namespaces && t.profiles == s.profiles
    ensures WithoutProfile(t.namespaces[n]) == WithoutProfile(s.namespaces[n])
    ensures HasWinner(t, n) <==> !Overshadowed(s, n) && !Overreaches(s, a, n)
    ensures Overshadowed(t, n) <==> Overshadowed(s, n) || Overreaches(s, a, n)
  {
    var k, before := a.key, s.namespaces[n];
    assert Labelled(s.profiles, s.profiles[k], n, before, a.now, a.out);
    LabelledOutcome(s.profiles, k, n, before, a.now, a.out);
    if Overreaches(s, a, n) {
      ShadowsAgrees(s.profiles, k, n, before, a.out);
    } else if Overshadowed(s, n) {
      ShadowsAgrees(s.profiles, Assigned(before).value, n, before, a.out);
    } else {
      WinnerIsNotShadowed(t, n);
    }
  }

  /** A cleanup write always leaves the winner. */
  lemma CleanStepSettles(s: State, a: Action, t: State, n: string)
    requires Inv(s) && Next(s, a, t) && Cleans(a, n) && Selectable(s.profiles)
    ensures n in s.namespaces && n in t.namespaces && t.profiles == s.profiles
    ensures WithoutProfile(t.namespaces[n]) == WithoutProfile(s.namespaces[n])
    ensures HasWinner(t, n)
  {
    var k, before := a.key, s.namespaces[n];
    assert WorkerSound(s, k, s.workers[k]);
    CleanedOutcome(s.profiles, k, n, before, a.now, a.out);
    DocumentedWithoutDeleting(s.profiles, k, n, a.out, Assigned(a.out));
  }

  /** From `i` to `j` no profile changes and no user touches the namespace. */
  ghost predicate Calm(states: seq<State>, actions: seq<Action>, i: nat, j: nat, n: string) {
    && i <= j < |states| == |actions| + 1
    && (forall y :: i <= y <= j ==> states[y].profiles == states[i].profiles)
    && forall y :: i <= y < j ==> !UserTouches(actions[y], n)
  }

  ghost predicate CleanedBetween(actions: seq<Action>, i: nat, j: nat, n: string)
    requires i <= j <= |actions|
  {
    exists y :: i <= y < j && Cleans(actions[y], n)
  }

  ghost predicate WrittenBetween(actions: seq<Action>, i: nat, j: nat, n: string)
    requires i <= j <= |actions|
  {
    exists y :: i <= y < j && (LabelsTo(actions[y], n) || Cleans(actions[y], n))
  }

  /** Some write overreached, and no cleanup came after it. */
  ghost predicate OverreachedBetween(states: seq<State>, actions: seq<Action>, i: nat, j: nat, n: string)
    requires i <= j <= |actions| <= |states|
  {
    exists y :: i <= y < j && Overreaches(states[y], actions[y], n) && !CleanedBetween(actions, y, j, n)
  }

  /**
   What became of a namespace between two states: unwritten, it keeps its labels; written once or more, it is on
   the documented winner, unless its label shadowed the winner from the start and no cleanup took it away, or a
   profile that does not match overreached.
   */
  ghost predicate Evolved(s: State, t: State, n: string, written: bool, cleaned: bool, overreached: bool) {
    && n in s.namespaces && n in t.namespaces
    && WithoutProfile(t.namespaces[n]) == WithoutProfile(s.namespaces[n])
    && (!written ==> t.namespaces[n] == s.namespaces[n])
    && (written ==> (HasWinner(t, n) <==> (Overshadowed(s, n) ==> cleaned) && !overreached))
    && (Overshadowed(t, n) <==> (Overshadowed(s, n) && !cleaned) || overreached)
  }

  lemma StepEvolves(s: State, a: Action, t: State, n: string)
    requires Inv(s) && Next(s, a, t) && !UserTouches(a, n) && n in s.namespaces && t.profiles == s.profiles
    requires Selectable(s.profiles) && Current(s)
    ensures Evolved(s, t, n, LabelsTo(a, n) || Cleans(a, n), Cleans(a, n), Overreaches(s, a, n))
  {
    if LabelsTo(a, n) {
      LabelStepSettles(s, a, t, n);
    } else if Cleans(a, n) {
      CleanStepSettles(s, a, t, n);
      WinnerIsNotShadowed(t, n);
    } else {
      UntouchedStays(s, a, t, n);
    }
  }

  lemma EvolvedThrough(s: State, u: State, t: State, n: string, written: bool, cleaned: bool, overreached: bool,
                       writes: bool, cleans: bool, overreaches: bool)
    requires Evolved(s, u, n, written, cleaned, overreached) && Evolved(u, t, n, writes, cleans, overreaches)
    requires s.profiles == u.profiles == t.profiles && (cleans ==> writes) && (overreaches ==> writes)
    requires overreached ==> written
    ensures Evolved(s, t, n, written || writes, cleaned || cleans, (overreached && !cleans) || overreaches)
  {
    assert !writes ==> t.namespaces[n] == u.namespaces[n] && (HasWinner(t, n) <==> HasWinner(u, n));
  }

  /**
   While the profiles stay as they are, regular, and no user touches the namespace, one write of it by a controller
   is enough and later ones do not undo it, however the reconciles interleave, unless a profile overreaches.
   */
  lemma {:induction false} LabelsSettle(states: seq<State>, actions: seq<Action>, i: nat, j: nat, n: string)
    requires Run(states, actions) && Calm(states, actions, i, j, n) && n in states[i].namespaces
    requires Selectable(states[i].profiles) && Current(states[i])
    ensures Current(states[j])
    ensures Evolved(states[i], states[j], n, WrittenBetween(actions, i, j, n), CleanedBetween(actions, i, j, n),
                    OverreachedBetween(states, actions, i, j, n))
    decreases j
  {
    if i < j {
      LabelsSettle(states, actions, i, j - 1, n);
      InvariantOverRuns(states, actions, j - 1);
      LastStep(states, actions, i, j, n);
    }
  }

  lemma LastStep(states: seq<State>, actions: seq<Action>, i: nat, j: nat, n: string)
    requires i < j < |states| && Calm(states, actions, i, j, n) && Next(states[j - 1], actions[j - 1], states[j])
    requires Inv(states[j - 1]) && Current(states[j - 1]) && Selectable(states[i].profiles)
    requires Evolved(states[i], states[j - 1], n, WrittenBetween(actions, i, j - 1, n),
                     CleanedBetween(actions, i, j - 1, n), OverreachedBetween(states, actions, i, j - 1, n))
    ensures Current(states[j])
    ensures Evolved(states[i], states[j], n, WrittenBetween(actions, i, j, n), CleanedBetween(actions, i, j, n),
                    OverreachedBetween(states, actions, i, j, n))
  {
    var s, a := states[j - 1], actions[j - 1];
    CurrentStays(s, a, states[j]);
    StepEvolves(s, a, states[j], n);
    BetweenStep(actions, i, j, n);
    OverreachedStep(states, actions, i, j, n);
    EvolvedThrough(states[i], s, states[j], n, WrittenBetween(actions, i, j - 1, n),
                   CleanedBetween(actions, i, j - 1, n), OverreachedBetween(states, actions, i, j - 1, n),
                   LabelsTo(a, n) || Cleans(a, n), Cleans(a, n), Overreaches(s, a, n));
  }

  lemma BetweenStep(actions: seq<Action>, i: nat, j: nat, n: string)
    requires i < j <= |actions|
    ensures WrittenBetween(actions, i, j, n)
            <==> WrittenBetween(actions, i, j - 1, n) || LabelsTo(actions[j - 1], n) || Cleans(actions[j - 1], n)
    ensures CleanedBetween(actions, i, j, n) <==> CleanedBetween(actions, i, j - 1, n) || Cleans(actions[j - 1], n)
  {
  }

  lemma OverreachedStep(states: seq<State>, actions: seq<Action>, i: nat, j: nat, n: string)
    requires i < j <= |actions| <= |states|
    ensures OverreachedBetween(states, actions, i, j, n)
            <==> || (OverreachedBetween(states, actions, i, j - 1, n) && !Cleans(actions[j - 1], n))
                 || Overreaches(states[j - 1], actions[j - 1], n)
    ensures OverreachedBetween(states, actions, i, j - 1, n) ==> WrittenBetween(actions, i, j - 1, n)
  {
    forall y | i <= y < j - 1
      ensures CleanedBetween(actions, y, j, n) <==> CleanedBetween(actions, y, j - 1, n) || Cleans(actions[j - 1], n)
    {
      BetweenStep(actions, y, j, n);
    }
    BetweenStep(actions, j - 1, j, n);
  }

  /**
   A namespace that no live profile matches is never given a profile: a label left from former times stays, or
   is taken off by a write for a selector for the empty value.
   */
  lemma UnmatchedIsNotLabelled(s: State, a: Action, t: State, n: string)
    requires Inv(s) && Next(s, a, t) && Selectable(s.profiles) && Current(s)
    requires n in s.namespaces && NoLiveName(s.profiles, n)
    requires forall k :: k in s.profiles ==> !LiveLabel(s.profiles[k], s.namespaces[n])
    ensures HasWinner(s, n) <==> Assigned(s.namespaces[n]) == None
    ensures LabelsTo(a, n) ==>
              && Assigned(t.namespaces[n]) == None
              && exists key :: s.profiles[a.key].spec.selector.matchLabels == Some(map[key := ""])
                               && key !in s.namespaces[n]
  {
    if LabelsTo(a, n) {
      LabelStepSettles(s, a, t, n);
      UnmatchedStays(s, t, n);
      WrittenByEmptyValue(s.profiles, a.key, n, s.namespaces[n], a.now);
    }
  }

  /** A live profile that is written without a match selects the empty value. */
  lemma WrittenByEmptyValue(profiles: Profiles, k: ProfileKey, name: string, labels: Labels, now: string)
    requires Selectable(profiles) && k in profiles && !profiles[k].deleting
    requires !LiveName(profiles[k], name) && !LiveLabel(profiles[k], labels)
    requires NamespaceWrite(profiles, profiles[k], name, labels, now).Write?
    ensures exists key :: profiles[k].spec.selector.matchLabels == Some(map[key := ""]) && key !in labels
  {
    ControllerMatchExact(profiles[k], labels);
    var key := FirstKey(profiles[k].spec.selector.matchLabels.value);
    assert profiles[k].spec.selector.matchLabels.value == map[key := ""];
  }

  lemma UnmatchedStays(s: State, t: State, n: string)
    requires n in s.namespaces && n in t.namespaces && t.profiles == s.profiles && Selectable(s.profiles)
    requires WithoutProfile(t.namespaces[n]) == WithoutProfile(s.namespaces[n]) && HasWinner(t, n)
    requires NoLiveName(s.profiles, n) && forall k :: k in s.profiles ==> !LiveLabel(s.profiles[k], s.namespaces[n])
    ensures Assigned(t.namespaces[n]) == None
  {
    DocumentedAgrees(s.profiles, n, s.namespaces[n], t.namespaces[n], Assigned(t.namespaces[n]));
  }
}
