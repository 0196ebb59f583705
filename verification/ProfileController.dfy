/**
 The QuotaProfile controller (internal/controller/quotaprofile_controller.go): it adds its finalizer,
 labels the namespaces a profile matches, and strips its label again when the profile is deleted.
 Every namespace it writes passes through namespace admission before it is stored.
 */
module ProfileController {
  import opened Strings
  import opened Api
  import opened ProfileAdmission
  import opened NamespaceAdmission
  import opened AdmissionBoundaries

  // ---------------------------------------------------------------- what the controller writes

  /** What `Get` leaves in the object it was given when the profile is not found. */
  const ZERO_PROFILE: QuotaProfile :=
    QuotaProfile(ProfileKey("", ""), 0, false, false, QuotaProfileSpec(NamespaceSelector(None, None), 0, [], []))

  function GetOrZero(profiles: Profiles, key: ProfileKey): QuotaProfile {
    if key in profiles then profiles[key] else ZERO_PROFILE
  }

  /** The key `resolveConflict` writes; an older or equal-aged profile of no higher precedence gives way. */
  function Preferred(profiles: Profiles, p: QuotaProfile, name: string, labels: Labels): ProfileKey
    requires PROFILE_LABEL in labels
  {
    var existing := SplitProfileID(labels[PROFILE_LABEL]);
    var e := GetOrZero(profiles, existing);
    if existing == p.key then p.key
    else if NameMatch(e, name) then e.key
    else if e.spec.precedence > p.spec.precedence || e.created > p.created then e.key
    else p.key
  }

  /** The key `addLabelToNamespace` writes; an empty label counts as none. */
  function Chosen(profiles: Profiles, p: QuotaProfile, name: string, labels: Labels): ProfileKey {
    if PROFILE_LABEL !in labels || labels[PROFILE_LABEL] == "" then p.key else Preferred(profiles, p, name, labels)
  }

  /** The controller's own label test: a missing label reads as the empty string. */
  predicate ControllerMatch(p: QuotaProfile, labels: Labels)
    requires p.LabelSelector() && ExactlyOneKey(p)
  {
    var selector := p.spec.selector.matchLabels.value;
    var key := FirstKey(selector);
    (if key in labels then labels[key] else "") == selector[key]
  }

  datatype Write = NoWrite | Write(labels: Labels) | Crash

  /** What `reconcileNamespace` for profile `p` sends for one namespace. */
  function NamespaceWrite(profiles: Profiles, p: QuotaProfile, name: string, labels: Labels, now: string): Write
    requires AtMostOneKey(p)
  {
    if p.NameSelector() then
      (if NameMatch(p, name) then Write(WithProfile(labels, p.key, now)) else NoWrite)
    else if p.LabelSelector() then
      (if |p.spec.selector.matchLabels.value| == 0 then Crash
       else if ControllerMatch(p, labels) then Write(WithProfile(labels, Chosen(profiles, p, name, labels), now))
       else NoWrite)
    else NoWrite
  }

  /**
   The controller's test is the webhook's, except that a selector for the empty value also takes a namespace
   without the label.
   */
  lemma ControllerMatchExact(p: QuotaProfile, labels: Labels)
    requires p.LabelSelector() && !p.NameSelector() && ExactlyOneKey(p)
    ensures var selector := p.spec.selector.matchLabels.value;
            var key := FirstKey(selector);
            ControllerMatch(p, labels) <==> LabelMatch(p, labels) || (selector[key] == "" && key !in labels)
  {
    LabelTest(p, labels);
  }

  /**
   The controller's rule for a conflict against the webhook's: they agree on a stored profile except that
   the controller also keeps one of no higher precedence if it names the namespace or is newer; and where
   the webhook fails on a missing profile the controller goes ahead.
   */
  lemma RulesDisagree(profiles: Profiles, p: QuotaProfile, name: string, labels: Labels)
    requires KeysAgree(profiles) && PROFILE_LABEL in labels
    ensures var existing := SplitProfileID(labels[PROFILE_LABEL]);
            if existing !in profiles
            then Resolved(profiles, p, labels) == None && Preferred(profiles, p, name, labels) == p.key
            else
              var e := profiles[existing];
              Resolved(profiles, p, labels) != Some(Preferred(profiles, p, name, labels))
              <==> && existing != p.key && e.spec.precedence <= p.spec.precedence
                   && (NameMatch(e, name) || e.created > p.created)
  {
  }

  // ---------------------------------------------------------------- controller write, then admission

  lemma WriteKeepsOthers(profiles: Profiles, p: QuotaProfile, name: string, labels: Labels, now: string)
    requires AtMostOneKey(p) && NamespaceWrite(profiles, p, name, labels, now).Write?
    ensures WithoutProfile(NamespaceWrite(profiles, p, name, labels, now).labels) == WithoutProfile(labels)
  {
  }

  lemma ShadowsAgrees(profiles: Profiles, k: ProfileKey, name: string, a: Labels, b: Labels)
    requires Selectable(profiles) && k in profiles && WithoutProfile(a) == WithoutProfile(b)
    ensures Shadows(profiles, k, name, a) <==> Shadows(profiles, k, name, b)
  {
    forall l | l in profiles ensures LiveLabel(profiles[l], a) <==> LiveLabel(profiles[l], b) {
      MatchAgrees(profiles[l], a, b);
    }
  }

  /** The controller writes a stored profile: its own, or the one the label already names. */
  lemma WrittenKey(profiles: Profiles, p: QuotaProfile, name: string, labels: Labels)
    requires Regular(profiles) && p.key in profiles && profiles[p.key] == p
    ensures var k := Chosen(profiles, p, name, labels);
            k == p.key || (k in profiles && Assigned(labels) == Some(k))
  {
  }

  /** The key the controller sends for a namespace it writes. */
  function Sent(profiles: Profiles, p: QuotaProfile, name: string, labels: Labels): ProfileKey {
    if p.NameSelector() then p.key else Chosen(profiles, p, name, labels)
  }

  lemma SentIsWritten(profiles: Profiles, k: ProfileKey, name: string, labels: Labels, now: string)
    requires Regular(profiles) && k in profiles && NamespaceWrite(profiles, profiles[k], name, labels, now).Write?
    ensures var sent := Sent(profiles, profiles[k], name, labels);
            && sent in profiles && (sent == k || Assigned(labels) == Some(sent))
            && NamespaceWrite(profiles, profiles[k], name, labels, now).labels == WithProfile(labels, sent, now)
            && Assigned(WithProfile(labels, sent, now)) == Some(sent)
  {
    WrittenKey(profiles, profiles[k], name, labels);
    AssignedWithProfile(labels, Sent(profiles, profiles[k], name, labels), now);
  }

  /**
   Any write of the controller, followed by admission, ends on the documented winner exactly when the profile
   it sends does not shadow the live matches; if that profile does, it stays.
   */
  lemma ControllerThenAdmission(profiles: Profiles, s: seq<QuotaProfile>, k: ProfileKey, name: string, labels: Labels,
                                now: string)
    requires Regular(profiles) && SortedListing(s, profiles) && k in profiles
    requires NamespaceWrite(profiles, profiles[k], name, labels, now).Write?
    ensures forall p :: p in s ==> AtMostOneKey(p)
    ensures var sent := Sent(profiles, profiles[k], name, labels);
            var written := NamespaceWrite(profiles, profiles[k], name, labels, now).labels;
            var decision := Decision(profiles, s, name, written, now);
            && sent in profiles && decision.Admitted?
            && WithoutProfile(decision.labels) == WithoutProfile(labels)
            && (Documented(profiles, name, labels, Assigned(decision.labels))
                <==> !Shadows(profiles, sent, name, labels))
            && (Shadows(profiles, sent, name, labels) ==> Assigned(decision.labels) == Some(sent))
  {
    var sent := Sent(profiles, profiles[k], name, labels);
    var written := NamespaceWrite(profiles, profiles[k], name, labels, now).labels;
    SentIsWritten(profiles, k, name, labels, now);
    WriteKeepsOthers(profiles, profiles[k], name, labels, now);
    AdmissionOutcome(profiles, s, name, written, now);
    var decision := Decision(profiles, s, name, written, now);
    OutcomeKeepsOthers(written, Assigned(decision.labels), now);
    DocumentedAgrees(profiles, name, labels, written, Assigned(decision.labels));
    ShadowsAgrees(profiles, sent, name, labels, written);
  }

  /**
   The controller writes a namespace that its profile does not match: the selector is for the empty value of a
   label the namespace does not have, and the profile has a precedence strictly above that of every match.
   */
  ghost predicate Overreach(profiles: Profiles, k: ProfileKey, name: string, labels: Labels)
    requires k in profiles && ExactlyOneKey(profiles[k])
  {
    var p := profiles[k];
    && p.LabelSelector() && !p.NameSelector()
    && (var selector := p.spec.selector.matchLabels.value;
        selector[FirstKey(selector)] == "" && FirstKey(selector) !in labels)
    && Chosen(profiles, p, name, labels) == k
    && Shadows(profiles, k, name, labels)
  }

  /**
   For a live profile the two ways to miss the documented winner: the incoming label shadows it already, or the
   profile itself does, on a namespace it does not match.
   */
  lemma ShadowedOrOverreach(profiles: Profiles, k: ProfileKey, name: string, labels: Labels, now: string)
    requires Regular(profiles) && k in profiles && !profiles[k].deleting
    requires NamespaceWrite(profiles, profiles[k], name, labels, now).Write?
    ensures var sent := Sent(profiles, profiles[k], name, labels);
            && sent in profiles
            && (Shadows(profiles, sent, name, labels)
                <==> Shadowed(profiles, name, labels) || Overreach(profiles, k, name, labels))
            && (sent == k && Shadows(profiles, sent, name, labels) ==> Overreach(profiles, k, name, labels))
            && (Shadowed(profiles, name, labels) && !Overreach(profiles, k, name, labels) ==>
                  Assigned(labels) == Some(sent))
  {
    var p := profiles[k];
    SentIsWritten(profiles, k, name, labels, now);
    if !p.NameSelector() {
      ControllerMatchExact(p, labels);
    }
  }

  /** A live profile that matches by the webhook's test is written, and does not overreach. */
  lemma MatchDoesNotOverreach(profiles: Profiles, k: ProfileKey, name: string, labels: Labels, now: string)
    requires Regular(profiles) && k in profiles
    requires LiveName(profiles[k], name) || LiveLabel(profiles[k], labels)
    ensures NamespaceWrite(profiles, profiles[k], name, labels, now).Write?
    ensures !Overreach(profiles, k, name, labels)
  {
    if !profiles[k].NameSelector() {
      ControllerMatchExact(profiles[k], labels);
    }
  }

  /** A profile that overreaches is written, and keeps the namespace. */
  lemma OverreachTakesOver(profiles: Profiles, s: seq<QuotaProfile>, k: ProfileKey, name: string, labels: Labels,
                           now: string)
    requires Regular(profiles) && SortedListing(s, profiles) && k in profiles && Overreach(profiles, k, name, labels)
    ensures forall p :: p in s ==> AtMostOneKey(p)
    ensures var write := NamespaceWrite(profiles, profiles[k], name, labels, now);
            && write.Write? && Decision(profiles, s, name, write.labels, now).Admitted?
            && Assigned(Decision(profiles, s, name, write.labels, now).labels) == Some(k)
            && !Documented(profiles, name, labels, Some(k))
  {
    ControllerMatchExact(profiles[k], labels);
    ControllerThenAdmission(profiles, s, k, name, labels, now);
  }

  lemma OverreachOfPair(profiles: Profiles, a: QuotaProfile, b: QuotaProfile, key: string, name: string, labels: Labels)
    requires profiles == map[b.key := b, a.key := a] && a.key != b.key && KeysAgree(profiles)
    requires a.spec.selector == NamespaceSelector(Some(map[key := ""]), None) && key !in labels
    requires LiveLabel(b, labels) && b.spec.precedence < a.spec.precedence && b.created < a.created
    requires Assigned(labels) == Some(b.key)
    ensures ExactlyOneKey(a) && Overreach(profiles, a.key, name, labels)
    ensures Documented(profiles, name, labels, Assigned(labels)) && !Shadowed(profiles, name, labels)
  {
    assert profiles[a.key] == a && profiles[b.key] == b;
    assert key in a.spec.selector.matchLabels.value.Keys;
    assert !LiveLabel(a, labels);
  }

  /**
   A namespace on the documented winner, and not shadowed, is handed to a profile that it does not match: the
   profile selects the empty value of a label the namespace does not have.
   */
  lemma OverreachExample(now: string)
    ensures var b, a := LabelProfile("b", 2, 3, "t", "w"), LabelProfile("a", 3, 5, "e", "");
            var profiles, labels: Labels := map[b.key := b, a.key := a], map["t" := "w", PROFILE_LABEL := "o.b"];
            && Regular(profiles) && SortedListing([b, a], profiles)
            && Documented(profiles, "n", labels, Assigned(labels)) && !Shadowed(profiles, "n", labels)
            && Overreach(profiles, a.key, "n", labels)
  {
    var b, a := LabelProfile("b", 2, 3, "t", "w"), LabelProfile("a", 3, 5, "e", "");
    var profiles, labels: Labels := map[b.key := b, a.key := a], map["t" := "w", PROFILE_LABEL := "o.b"];
    LabelProfileIsRegular("b", 2, 3, "t", "w");
    LabelProfileIsRegular("a", 3, 5, "e", "");
    assert "a"[0] == 'a' && "t"[0] == 't' && |"e"| == 1 && |PROFILE_LABEL| > 1;
    PairIsSelectable(b, a);
    PairListing(b, a);
    assert ProfileID(b.key) == "o.b";
    ProfileIDRoundTrip(b.key);
    assert LiveLabel(b, labels) && "e" !in labels;
    OverreachOfPair(profiles, a, b, "e", "n", labels);
  }

  // ---------------------------------------------------------------- cleanup

  /** A namespace stripped of its label and admitted again ends on the winner among the other live profiles. */
  lemma StrippedAdmission(profiles: Profiles, s: seq<QuotaProfile>, key: ProfileKey, name: string, labels: Labels,
                          now: string)
    requires Regular(profiles) && SortedListing(s, profiles) && key in profiles && profiles[key].deleting
    ensures forall p :: p in s ==> AtMostOneKey(p)
    ensures var decision := Decision(profiles, s, name, WithoutProfile(labels), now);
            && decision.Admitted?
            && WithoutProfile(decision.labels) == WithoutProfile(labels)
            && Documented(profiles - {key}, name, decision.labels, Assigned(decision.labels))
            && Assigned(decision.labels) != Some(key)
  {
    var stripped := WithoutProfile(labels);
    FreshAdmission(profiles, s, name, stripped, now);
    AdmissionOutcome(profiles, s, name, stripped, now);
    var decision := Decision(profiles, s, name, stripped, now);
    var w := Assigned(decision.labels);
    OutcomeKeepsOthers(stripped, w, now);
    assert WithoutProfile(stripped) == stripped;
    DocumentedAgrees(profiles, name, stripped, decision.labels, w);
    DocumentedWithoutDeleting(profiles, key, name, decision.labels, w);
  }

  /** A profile being deleted has no say in who the winner is. */
  lemma DocumentedWithoutDeleting(profiles: Profiles, key: ProfileKey, name: string, labels: Labels,
                                  winner: Option<ProfileKey>)
    requires key in profiles && profiles[key].deleting && winner != Some(key)
    ensures Documented(profiles, name, labels, winner) <==> Documented(profiles - {key}, name, labels, winner)
  {
    var rest := profiles - {key};
    forall k | k in profiles && k != key ensures k in rest && rest[k] == profiles[k] {
    }
  }

  // ---------------------------------------------------------------- the controller at work

  /** `out` is an outcome of admission for some order the stored profiles may be listed and sorted in. */
  ghost predicate MayDecide(profiles: Profiles, name: string, labels: Labels, now: string, out: Admission) {
    exists s :: SortedListing(s, profiles) && (forall p :: p in s ==> AtMostOneKey(p))
                && Decision(profiles, s, name, labels, now) == out
  }

  /**
   The namespace after a cleanup pass for `key`: stripped and admitted again if it carried the label, else
   untouched.
   */
  ghost predicate Cleaned(profiles: Profiles, key: ProfileKey, name: string, before: Labels, now: string, after: Labels)
  {
    if Assigned(before) == Some(key)
    then MayDecide(profiles, name, WithoutProfile(before), now, Admitted(after))
    else after == before
  }

  /** The namespace after a labelling pass for profile `p`. */
  ghost predicate Labelled(profiles: Profiles, p: QuotaProfile, name: string, before: Labels, now: string,
                           after: Labels)
    requires AtMostOneKey(p)
  {
    match NamespaceWrite(profiles, p, name, before, now)
    case NoWrite => after == before
    case Write(written) => MayDecide(profiles, name, written, now, Admitted(after))
    case Crash => false
  }

  /**
   What a cleanup pass leaves on each namespace: never the profile being deleted, the fallback where it was, and
   what there was anywhere else.
   */
  lemma CleanedOutcome(profiles: Profiles, key: ProfileKey, name: string, before: Labels, now: string, after: Labels)
    requires Regular(profiles) && key in profiles && profiles[key].deleting
    requires Cleaned(profiles, key, name, before, now, after)
    ensures Assigned(after) != Some(key) && WithoutProfile(after) == WithoutProfile(before)
    ensures Assigned(before) == Some(key) ==> Documented(profiles - {key}, name, after, Assigned(after))
    ensures Assigned(before) != Some(key) ==> after == before
  {
    if Assigned(before) == Some(key) {
      var s :| SortedListing(s, profiles) && (forall p :: p in s ==> AtMostOneKey(p))
               && Decision(profiles, s, name, WithoutProfile(before), now) == Admitted(after);
      StrippedAdmission(profiles, s, key, name, before, now);
    }
  }

  /** The label on the namespace is the one written for this profile. */
  predicate Bears(labels: Labels, key: ProfileKey) {
    PROFILE_LABEL in labels && labels[PROFILE_LABEL] == ProfileID(key)
  }

  /**
   A cleanup pass takes the label of the profile off a namespace exactly when its key has no dot; otherwise it does
   not recognise the label and leaves the namespace alone.
   */
  lemma CleanupStrips(profiles: Profiles, key: ProfileKey, name: string, before: Labels, now: string, after: Labels)
    requires Selectable(profiles) && key in profiles && profiles[key].deleting && Bears(before, key)
    requires Cleaned(profiles, key, name, before, now, after)
    ensures Bears(after, key) <==> !DotFree(key)
    ensures !DotFree(key) ==> after == before
  {
    ProfileIDRoundTrip(key);
    SplitProfileIDDotFree(before[PROFILE_LABEL]);
    if DotFree(key) {
      var s :| SortedListing(s, profiles) && (forall p :: p in s ==> AtMostOneKey(p))
               && Decision(profiles, s, name, WithoutProfile(before), now) == Admitted(after);
      FreshAdmission(profiles, s, name, WithoutProfile(before), now);
      var w :| Documented(profiles, name, WithoutProfile(before), w)
               && after == Outcome(WithoutProfile(before), w, now);
      if w.Some? {
        ReservedKeysDiffer();
        WrittenLabelResolves(profiles, w.value, WithoutProfile(before), now);
        ProfileIDRoundTrip(w.value);
        assert Bears(after, key) ==> Assigned(after) == Some(key);
      }
    }
  }

  /** Whatever the rest of the store, a profile named `a.b` can go and leave its label on a namespace. */
  lemma DottedDeletionExample(profiles: Profiles, name: string, now: string, later: string)
    ensures var key := ProfileKey("o", "a.b");
            var labels := WithProfile(map[], key, now);
            Bears(labels, key) && Cleaned(profiles, key, name, labels, later, labels)
  {
    var key := ProfileKey("o", "a.b");
    assert "a.b"[1] == '.';
    ReservedKeysDiffer();
    ProfileIDRoundTrip(key);
  }

  /**
   What a labelling pass for a live profile leaves on each namespace it writes: the documented winner, except
   where the old label shadows it or the profile overreaches.
   */
  lemma LabelledOutcome(profiles: Profiles, k: ProfileKey, name: string, before: Labels, now: string, after: Labels)
    requires Regular(profiles) && k in profiles && !profiles[k].deleting
    requires NamespaceWrite(profiles, profiles[k], name, before, now).Write?
    requires Labelled(profiles, profiles[k], name, before, now, after)
    ensures WithoutProfile(after) == WithoutProfile(before)
    ensures Documented(profiles, name, after, Assigned(after))
            <==> !Shadowed(profiles, name, before) && !Overreach(profiles, k, name, before)
    ensures Overreach(profiles, k, name, before) ==> Assigned(after) == Some(k)
    ensures Shadowed(profiles, name, before) && !Overreach(profiles, k, name, before) ==>
              Assigned(after) == Assigned(before)
  {
    var write := NamespaceWrite(profiles, profiles[k], name, before, now);
    var s :| SortedListing(s, profiles) && (forall p :: p in s ==> AtMostOneKey(p))
             && Decision(profiles, s, name, write.labels, now) == Admitted(after);
    ControllerThenAdmission(profiles, s, k, name, before, now);
    ShadowedOrOverreach(profiles, k, name, before, now);
    DocumentedAgrees(profiles, name, before, after, Assigned(after));
  }

  /** The same for all namespaces, and for those that match by the webhook's test. */
  lemma LabelledOutcomes(profiles: Profiles, k: ProfileKey, before: map<string, Labels>, now: string,
                         after: map<string, Labels>)
    requires Regular(profiles) && k in profiles && !profiles[k].deleting && after.Keys == before.Keys
    requires forall n :: n in after ==> Labelled(profiles, profiles[k], n, before[n], now, after[n])
    ensures forall n :: n in after && !NamespaceWrite(profiles, profiles[k], n, before[n], now).Write? ==>
              after[n] == before[n]
    ensures forall n :: n in after && NamespaceWrite(profiles, profiles[k], n, before[n], now).Write? ==>
              (Documented(profiles, n, after[n], Assigned(after[n]))
               <==> !Shadowed(profiles, n, before[n]) && !Overreach(profiles, k, n, before[n]))
    ensures forall n :: n in after && (LiveName(profiles[k], n) || LiveLabel(profiles[k], before[n])) ==>
              (Documented(profiles, n, after[n], Assigned(after[n])) <==> !Shadowed(profiles, n, before[n]))
  {
    forall n | n in after && NamespaceWrite(profiles, profiles[k], n, before[n], now).Write?
      ensures Documented(profiles, n, after[n], Assigned(after[n]))
              <==> !Shadowed(profiles, n, before[n]) && !Overreach(profiles, k, n, before[n])
    {
      LabelledOutcome(profiles, k, n, before[n], now, after[n]);
    }
    forall n | n in after && (LiveName(profiles[k], n) || LiveLabel(profiles[k], before[n]))
      ensures NamespaceWrite(profiles, profiles[k], n, before[n], now).Write? && !Overreach(profiles, k, n, before[n])
    {
      MatchDoesNotOverreach(profiles, k, n, before[n], now);
    }
  }

  /** Admission refuses a controller's write only if the label it sends names no stored profile. */
  lemma ResolvedWriteAdmitted(profiles: Profiles, name: string, labels: Labels, now: string, out: Admission)
    requires Regular(profiles) && Resolves(profiles, labels) && MayDecide(profiles, name, labels, now, out)
    ensures out.Admitted?
  {
    var s :| SortedListing(s, profiles) && (forall p :: p in s ==> AtMostOneKey(p))
             && Decision(profiles, s, name, labels, now) == out;
    AdmissionOutcome(profiles, s, name, labels, now);
  }

  lemma WriteResolves(profiles: Profiles, p: QuotaProfile, name: string, labels: Labels, now: string)
    requires Regular(profiles) && p.key in profiles && profiles[p.key] == p && AtMostOneKey(p)
    ensures var write := NamespaceWrite(profiles, p, name, labels, now);
            write.Write? ==> Resolves(profiles, write.labels)
  {
    WrittenKey(profiles, p, name, labels);
    AssignedWithProfile(labels, p.key, now);
    if Chosen(profiles, p, name, labels) in profiles {
      AssignedWithProfile(labels, Chosen(profiles, p, name, labels), now);
    }
  }

  /** Why a reconcile ended early. */
  datatype Failure = NamespaceRefused(error: Error) | ProfileRefused | ProfileMissing | EmptySelectorPanic

  /** The cleanup of one namespace can end this way: it carries the label, and admission refuses it without. */
  ghost predicate CleaningFails(profiles: Profiles, key: ProfileKey, name: string, before: Labels, now: string,
                                failure: Failure)
  {
    && Assigned(before) == Some(key) && failure.NamespaceRefused?
    && MayDecide(profiles, name, WithoutProfile(before), now, Denied(failure.error))
  }

  /** The labelling of one namespace can: the selector has no key, or admission refuses what is sent. */
  ghost predicate LabellingFails(profiles: Profiles, p: QuotaProfile, name: string, before: Labels, now: string,
                                 failure: Failure)
    requires AtMostOneKey(p)
  {
    match NamespaceWrite(profiles, p, name, before, now)
    case NoWrite => false
    case Crash => failure == EmptySelectorPanic
    case Write(written) =>
      failure.NamespaceRefused? && MayDecide(profiles, name, written, now, Denied(failure.error))
  }

  /** A cleanup that ended early: each namespace is cleaned or untouched, and one is untouched because it failed. */
  ghost predicate PartlyCleaned(profiles: Profiles, key: ProfileKey, before: map<string, Labels>, now: string,
                                after: map<string, Labels>, failure: Failure)
  {
    && after.Keys == before.Keys
    && (forall n :: n in after ==> after[n] == before[n] || Cleaned(profiles, key, n, before[n], now, after[n]))
    && exists n :: n in after && after[n] == before[n] && CleaningFails(profiles, key, n, before[n], now, failure)
  }

  /** The same for a labelling. */
  ghost predicate PartlyLabelled(profiles: Profiles, p: QuotaProfile, before: map<string, Labels>, now: string,
                                 after: map<string, Labels>, failure: Failure)
    requires AtMostOneKey(p)
  {
    && after.Keys == before.Keys
    && (forall n :: n in after ==> after[n] == before[n] || Labelled(profiles, p, n, before[n], now, after[n]))
    && exists n :: n in after && after[n] == before[n] && LabellingFails(profiles, p, n, before[n], now, failure)
  }

  /** Which namespaces the controller writes for a profile, and where it panics, on the selector itself. */
  lemma WriteExact(profiles: Profiles, p: QuotaProfile, name: string, labels: Labels, now: string)
    requires WellFormed(p)
    ensures var write := NamespaceWrite(profiles, p, name, labels, now);
            && (write.Crash? <==> p.spec.selector.matchLabels == Some(map[]))
            && (write.Write? <==>
                  || p.spec.selector.matchName == Some(name)
                  || exists key, value :: && p.spec.selector.matchLabels == Some(map[key := value])
                                          && (if key in labels then labels[key] == value else value == ""))
  {
    if p.LabelSelector() && |p.spec.selector.matchLabels.value| == 1 {
      var selector := p.spec.selector.matchLabels.value;
      var key := FirstKey(selector);
      assert selector == map[key := selector[key]];
    }
    forall key: string, value: string ensures FirstKey(map[key := value]) == key {
      assert key in map[key := value].Keys;
    }
  }

  /**
   The API server together with the operator's webhooks: profiles and namespaces are stored here, and
   every write goes through admission first.
   */
  class Cluster {
    var profiles: Profiles
    var namespaces: map<string, Labels>

    ghost predicate Valid()
      reads this
    {
      SelectorInvariant(profiles)
    }

    constructor ()
      ensures Valid() && profiles == map[] && namespaces == map[]
    {
      profiles := map[];
      namespaces := map[];
    }

    /** An update of a namespace: admission decides the labels that are stored, or refuses the write. */
    method UpdateNamespace(ns: Namespace, now: string) returns (error: Option<Error>)
      requires Valid() && ns.name in namespaces
      modifies ns, this`namespaces
      ensures match error
              case Some(e) =>
                && namespaces == old(namespaces)
                && MayDecide(profiles, ns.name, old(ns.labels), now, Denied(e))
              case None =>
                && namespaces == old(namespaces)[ns.name := ns.labels]
                && MayDecide(profiles, ns.name, old(ns.labels), now, Admitted(ns.labels))
    {
      ghost var sorted;
      error, sorted := Default(profiles, ns, now);
      if error == None {
        namespaces := namespaces[ns.name := ns.labels];
      }
    }

    /**
     An update of a profile: `validate` decides; an object whose last finalizer goes while it is being deleted
     disappears.
     */
    method UpdateProfile(p: QuotaProfile) returns (ok: bool)
      requires Valid() && p.key in profiles
      modifies this`profiles
      ensures Valid()
      ensures ok <==> SelectorInvariant(old(profiles)[p.key := Serialized(p)])
      ensures profiles == if !ok then old(profiles)
                          else if p.deleting && !p.finalizer then old(profiles) - {p.key}
                          else old(profiles)[p.key := Serialized(p)]
    {
      var items := ListProfiles(profiles);
      AcceptedWritesKeepInvariant(profiles, Serialized(p), items[..]);
      ok := Validate(Serialized(p), items[..]) == Accepted;
      if ok {
        if p.deleting && !p.finalizer {
          profiles := profiles - {p.key};
        } else {
          profiles := profiles[p.key := Serialized(p)];
        }
      }
    }

    /** The body of the loop of `handleDeletion`. */
    method CleanNamespace(key: ProfileKey, ns: Namespace, now: string) returns (error: Option<Failure>)
      requires Valid() && ns.name in namespaces && ns.labels == namespaces[ns.name]
      modifies ns, this`namespaces
      ensures namespaces.Keys == old(namespaces.Keys)
      ensures forall n :: n in namespaces && n != ns.name ==> namespaces[n] == old(namespaces)[n]
      ensures error.Some? ==>
                && namespaces == old(namespaces)
                && CleaningFails(profiles, key, ns.name, namespaces[ns.name], now, error.value)
      ensures error == None ==> Cleaned(profiles, key, ns.name, old(namespaces)[ns.name], now, namespaces[ns.name])
      ensures Regular(profiles) ==> error == None
    {
      error := None;
      if PROFILE_LABEL in ns.labels {
        var carried := SplitProfileID(ns.labels[PROFILE_LABEL]);
        if carried.namespace == key.namespace && carried.name == key.name {
          ns.RemoveLabel();
          ghost var stripped := ns.labels;
          var refused := UpdateNamespace(ns, now);
          if refused.Some? {
            if Regular(profiles) {
              ResolvedWriteAdmitted(profiles, ns.name, stripped, now, Denied(refused.value));
            }
            error := Some(NamespaceRefused(refused.value));
          }
        }
      }
    }

    /**
     Deletion of a profile that carries the finalizer. On success the profile is gone and every namespace
     cleaned. A failure leaves the profile in place: for an empty label selector after all namespaces were
     cleaned, otherwise at the first namespace that is refused. Nothing fails when the stored profiles are
     regular; then no namespace names the profile, and those that did have the winner among the others.
     */
    method HandleDeletion(p: QuotaProfile, now: string) returns (error: Option<Failure>)
      requires Valid() && p.key in profiles && profiles[p.key] == p && p.deleting
      modifies this
      ensures Valid() && namespaces.Keys == old(namespaces.Keys)
      ensures !p.finalizer ==> error == None && profiles == old(profiles) && namespaces == old(namespaces)
      ensures error.Some? ==> profiles == old(profiles)
      ensures error.Some? && error != Some(ProfileRefused) ==>
                PartlyCleaned(profiles, p.key, old(namespaces), now, namespaces, error.value)
      ensures error == Some(ProfileRefused) ==>
                && EmptyLabelSelector(p)
                && forall n :: n in namespaces ==> Cleaned(profiles, p.key, n, old(namespaces)[n], now, namespaces[n])
      ensures p.finalizer && error == None ==>
                && profiles == old(profiles) - {p.key}
                && forall n :: n in namespaces ==>
                     Cleaned(old(profiles), p.key, n, old(namespaces)[n], now, namespaces[n])
      ensures p.finalizer && Regular(old(profiles)) ==>
                && error == None
                && forall n :: n in namespaces ==>
                     && Assigned(namespaces[n]) != Some(p.key)
                     && WithoutProfile(namespaces[n]) == WithoutProfile(old(namespaces)[n])
                     && (if Assigned(old(namespaces)[n]) == Some(p.key)
                         then Documented(profiles, n, namespaces[n], Assigned(namespaces[n]))
                         else namespaces[n] == old(namespaces)[n])
    {
      error := None;
      if !p.finalizer {
        return;
      }
      var items := ListItems(namespaces);
      ItemsListed(items, namespaces);
      for i := 0 to |items|
        invariant error == None && Valid() && profiles == old(profiles) && namespaces.Keys == old(namespaces.Keys)
        invariant forall j :: 0 <= j < i ==>
                    Cleaned(profiles, p.key, items[j].0, items[j].1, now, namespaces[items[j].0])
        invariant forall j :: i <= j < |items| ==> namespaces[items[j].0] == items[j].1
      {
        var ns := new Namespace(items[i].0, items[i].1);
        error := CleanNamespace(p.key, ns, now);
        if error.Some? {
          return;
        }
      }
      ResubmissionKeepsInvariant(profiles, p.key, false);
      if Regular(profiles) {
        forall n | n in namespaces
          ensures Assigned(namespaces[n]) != Some(p.key)
          ensures WithoutProfile(namespaces[n]) == WithoutProfile(old(namespaces)[n])
          ensures Assigned(old(namespaces)[n]) == Some(p.key) ==>
                    Documented(profiles - {p.key}, n, namespaces[n], Assigned(namespaces[n]))
        {
          CleanedOutcome(profiles, p.key, n, old(namespaces)[n], now, namespaces[n]);
        }
      }
      var ok := UpdateProfile(p.(finalizer := false));
      if !ok {
        error := Some(ProfileRefused);
      }
    }

    /** `resolveConflict` of the controller: the namespace is updated with the preferred profile in every branch. */
    method ResolveConflict(p: QuotaProfile, ns: Namespace, now: string) returns (refused: Option<Error>)
      requires Valid() && ns.name in namespaces && PROFILE_LABEL in ns.labels
      modifies ns, this`namespaces
      ensures var written := WithProfile(old(ns.labels), Preferred(profiles, p, ns.name, old(ns.labels)), now);
              match refused
              case Some(e) => namespaces == old(namespaces) && MayDecide(profiles, ns.name, written, now, Denied(e))
              case None =>
                && namespaces == old(namespaces)[ns.name := ns.labels]
                && MayDecide(profiles, ns.name, written, now, Admitted(ns.labels))
    {
      var existing := SplitProfileID(ns.labels[PROFILE_LABEL]);
      if existing.namespace == p.key.namespace && existing.name == p.key.name {
        ns.SetQuotaProfileLabels(p.key, now);
        refused := UpdateNamespace(ns, now);
        return;
      }
      var existingProfile := GetOrZero(profiles, existing);
      if existingProfile.NameSelector() {
        if ns.name == existingProfile.spec.selector.matchName.value {
          ns.SetQuotaProfileLabels(existingProfile.key, now);
          refused := UpdateNamespace(ns, now);
          return;
        }
      }
      if existingProfile.spec.precedence > p.spec.precedence || existingProfile.created > p.created {
        ns.SetQuotaProfileLabels(existingProfile.key, now);
        refused := UpdateNamespace(ns, now);
        return;
      }
      ns.SetQuotaProfileLabels(p.key, now);
      refused := UpdateNamespace(ns, now);
    }

    method AddLabelToNamespace(p: QuotaProfile, ns: Namespace, now: string) returns (refused: Option<Error>)
      requires Valid() && ns.name in namespaces
      modifies ns, this`namespaces
      ensures var written := WithProfile(old(ns.labels), Chosen(profiles, p, ns.name, old(ns.labels)), now);
              match refused
              case Some(e) => namespaces == old(namespaces) && MayDecide(profiles, ns.name, written, now, Denied(e))
              case None =>
                && namespaces == old(namespaces)[ns.name := ns.labels]
                && MayDecide(profiles, ns.name, written, now, Admitted(ns.labels))
    {
      if PROFILE_LABEL !in ns.labels || ns.labels[PROFILE_LABEL] == "" {
        ns.SetQuotaProfileLabels(p.key, now);
        refused := UpdateNamespace(ns, now);
        return;
      }
      refused := ResolveConflict(p, ns, now);
    }

    /** The bodies of the two loops of `reconcileNamespace`. */
    method LabelNamespace(p: QuotaProfile, ns: Namespace, now: string) returns (error: Option<Failure>)
      requires Valid() && ns.name in namespaces && ns.labels == namespaces[ns.name]
      requires p.key in profiles && profiles[p.key] == p && AtMostOneKey(p)
      modifies ns, this`namespaces
      ensures namespaces.Keys == old(namespaces.Keys)
      ensures forall n :: n in namespaces && n != ns.name ==> namespaces[n] == old(namespaces)[n]
      ensures error.Some? ==>
                && namespaces == old(namespaces)
                && LabellingFails(profiles, p, ns.name, namespaces[ns.name], now, error.value)
      ensures error == None ==> Labelled(profiles, p, ns.name, old(namespaces)[ns.name], now, namespaces[ns.name])
      ensures Regular(profiles) ==> error == None
    {
      error := None;
      var refused: Option<Error> := None;
      ghost var written := NamespaceWrite(profiles, p, ns.name, ns.labels, now);
      if p.NameSelector() {
        if ns.name == p.spec.selector.matchName.value {
          ns.SetQuotaProfileLabels(p.key, now);
          refused := UpdateNamespace(ns, now);
        }
      } else if p.LabelSelector() {
        if |p.spec.selector.matchLabels.value| == 0 {
          return Some(EmptySelectorPanic);
        }
        if ControllerMatch(p, ns.labels) {
          refused := AddLabelToNamespace(p, ns, now);
        }
      }
      if refused.Some? {
        if Regular(profiles) {
          WriteResolves(profiles, p, ns.name, old(ns.labels), now);
          ResolvedWriteAdmitted(profiles, ns.name, written.labels, now, Denied(refused.value));
        }
        error := Some(NamespaceRefused(refused.value));
      }
    }

    /**
     `reconcileNamespace`: on success every namespace has been offered the profile. With regular profiles
     it succeeds, and each namespace a live profile matches by the controller's test ends on the documented
     winner exactly when the label it had did not shadow it and the profile does not overreach; each it matches
     by the webhook's test is among these, and there the profile does not.
     */
    method ReconcileNamespaces(key: ProfileKey, now: string) returns (error: Option<Failure>)
      requires Valid()
      modifies this`namespaces
      ensures namespaces.Keys == old(namespaces.Keys)
      ensures key !in profiles ==> error == Some(ProfileMissing) && namespaces == old(namespaces)
      ensures key in profiles && error == None ==>
                forall n :: n in namespaces ==>
                  Labelled(profiles, profiles[key], n, old(namespaces)[n], now, namespaces[n])
      ensures key in profiles && error.Some? ==>
                PartlyLabelled(profiles, profiles[key], old(namespaces), now, namespaces, error.value)
      ensures key in profiles && Regular(profiles) ==> error == None
      ensures key in profiles ==>
                forall n :: n in namespaces
                            && !NamespaceWrite(profiles, profiles[key], n, old(namespaces)[n], now).Write? ==>
                  namespaces[n] == old(namespaces)[n]
      ensures key in profiles && Regular(profiles) && !profiles[key].deleting ==>
                forall n :: n in namespaces
                            && NamespaceWrite(profiles, profiles[key], n, old(namespaces)[n], now).Write? ==>
                  (Documented(profiles, n, namespaces[n], Assigned(namespaces[n]))
                   <==> !Shadowed(profiles, n, old(namespaces)[n]) && !Overreach(profiles, key, n, old(namespaces)[n]))
      ensures key in profiles && Regular(profiles) ==>
                forall n :: n in namespaces
                            && (LiveName(profiles[key], n) || LiveLabel(profiles[key], old(namespaces)[n])) ==>
                  (Documented(profiles, n, namespaces[n], Assigned(namespaces[n]))
                   <==> !Shadowed(profiles, n, old(namespaces)[n]))
    {
      error := None;
      var items := ListItems(namespaces);
      if key !in profiles {
        return Some(ProfileMissing);
      }
      var p := profiles[key];
      assert WellFormed(p);
      ItemsListed(items, namespaces);
      for i := 0 to |items|
        invariant error == None && namespaces.Keys == old(namespaces.Keys)
        invariant forall j :: 0 <= j < i ==> Labelled(profiles, p, items[j].0, items[j].1, now, namespaces[items[j].0])
        invariant forall j :: i <= j < |items| ==> namespaces[items[j].0] == items[j].1
      {
        var ns := new Namespace(items[i].0, items[i].1);
        error := LabelNamespace(p, ns, now);
        if error.Some? {
          return;
        }
      }
      if Regular(profiles) && !p.deleting {
        LabelledOutcomes(profiles, key, old(namespaces), now, namespaces);
      }
    }

    /**
     `Reconcile` of a profile: cleanup for one being deleted; otherwise the finalizer is in place before
     any namespace is labelled, and adding it fails exactly for an empty label selector.
     */
    method Reconcile(key: ProfileKey, now: string) returns (error: Option<Failure>)
      requires Valid()
      modifies this
      ensures Valid() && namespaces.Keys == old(namespaces.Keys)
      ensures key !in old(profiles) ==> error == None && profiles == old(profiles) && namespaces == old(namespaces)
      ensures key in old(profiles) && old(profiles[key].deleting) && error == None && old(profiles[key].finalizer) ==>
                && key !in profiles
                && forall n :: n in namespaces ==>
                     Cleaned(old(profiles), key, n, old(namespaces)[n], now, namespaces[n])
      ensures key in old(profiles) && old(profiles[key].deleting) && !old(profiles[key].finalizer) ==>
                error == None && profiles == old(profiles) && namespaces == old(namespaces)
      ensures key in old(profiles) && old(profiles[key].deleting) && error.Some? ==>
                if error == Some(ProfileRefused)
                then EmptyLabelSelector(old(profiles[key]))
                     && forall n :: n in namespaces ==>
                          Cleaned(profiles, key, n, old(namespaces)[n], now, namespaces[n])
                else PartlyCleaned(profiles, key, old(namespaces), now, namespaces, error.value)
      ensures key in old(profiles) && old(profiles[key].deleting) ==>
                && (error.Some? ==> profiles == old(profiles))
                && (Regular(old(profiles)) && old(profiles[key].finalizer) ==>
                      && key !in profiles
                      && forall n :: n in namespaces ==>
                           && Assigned(namespaces[n]) != Some(key)
                           && WithoutProfile(namespaces[n]) == WithoutProfile(old(namespaces)[n])
                           && (if Assigned(old(namespaces)[n]) == Some(key)
                               then Documented(profiles, n, namespaces[n], Assigned(namespaces[n]))
                               else namespaces[n] == old(namespaces)[n]))
      ensures Regular(old(profiles)) ==> Regular(profiles) && error == None
      ensures key in old(profiles) && !old(profiles[key].deleting) && Regular(old(profiles)) ==>
                && key in profiles
                && forall n :: n in namespaces
                               && NamespaceWrite(profiles, profiles[key], n, old(namespaces)[n], now).Write? ==>
                     (Documented(profiles, n, namespaces[n], Assigned(namespaces[n]))
                      <==> && !Shadowed(profiles, n, old(namespaces)[n])
                           && !Overreach(profiles, key, n, old(namespaces)[n]))
      ensures key in old(profiles) && !old(profiles[key].deleting) ==>
                var p := old(profiles[key]);
                if !p.finalizer && EmptyLabelSelector(p)
                then error == Some(ProfileRefused) && profiles == old(profiles) && namespaces == old(namespaces)
                else
                  && profiles == old(profiles)[key := p.(finalizer := true)]
                  && (error == None ==> forall n :: n in namespaces ==>
                        Labelled(profiles, profiles[key], n, old(namespaces)[n], now, namespaces[n]))
                  && (error.Some? ==>
                        PartlyLabelled(profiles, profiles[key], old(namespaces), now, namespaces, error.value))
    {
      if key !in profiles {
        return None;
      }
      var p := profiles[key];
      assert WellFormed(p);
      if p.deleting {
        error := HandleDeletion(p, now);
        return;
      }
      if !p.finalizer {
        ResubmissionKeepsInvariant(profiles, key, true);
        var ok := UpdateProfile(p.(finalizer := true));
        if !ok {
          return Some(ProfileRefused);
        }
      }
      assert Regular(old(profiles)) ==> Regular(profiles);
      error := ReconcileNamespaces(key, now);
    }
  }
}
