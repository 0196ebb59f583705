/**
 Profile admission (internal/webhook/v1alpha1/quotaprofile_webhook.go): `validate` guards every
 create and update of a QuotaProfile.
 */
module ProfileAdmission {
  import opened Strings
  import opened Api

  datatype Reason = NoSelector | BothSelectors | TooManyLabels | DuplicateName | DuplicateLabelKey

  /** `Panicked` stands for an index out of range in the handler, which the API server sees as a refusal. */
  datatype Verdict = Accepted | Rejected(reason: Reason) | Panicked

  // ---------------------------------------------------------------- the handler

  /** `validate`, with `stored` for the profiles in the order the client lists them. */
  function Validate(p: QuotaProfile, stored: seq<QuotaProfile>): Verdict
    requires forall q :: q in stored ==> AtMostOneKey(q)
  {
    var selector := p.spec.selector;
    if selector.matchLabels.None? && selector.matchName.None? then Rejected(NoSelector)
    else if selector.matchLabels.Some? && selector.matchName.Some? then Rejected(BothSelectors)
    else if selector.matchLabels.Some? && |selector.matchLabels.value| > 1 then Rejected(TooManyLabels)
    else if selector.matchName.Some? then
      (if exists i :: 0 <= i < |stored| && SameNameElsewhere(p, stored[i]) then Rejected(DuplicateName) else Accepted)
    else CheckLabelKeys(p, stored)
  }

  predicate SameNameElsewhere(p: QuotaProfile, q: QuotaProfile)
    requires p.NameSelector()
  {
    q.key != p.key && q.spec.selector.matchName == p.spec.selector.matchName
  }

  /** The search for a stored profile with the same label key; `keys[0]` of an empty map panics. */
  function CheckLabelKeys(p: QuotaProfile, stored: seq<QuotaProfile>): Verdict
    requires p.LabelSelector() && AtMostOneKey(p)
    requires forall q :: q in stored ==> AtMostOneKey(q)
  {
    if stored == [] then Accepted
    else
      var q := stored[0];
      assert AtMostOneKey(q);
      if q.key == p.key || !q.LabelSelector() then CheckLabelKeys(p, stored[1..])
      else
        var mine, theirs := p.spec.selector.matchLabels.value, q.spec.selector.matchLabels.value;
        if |theirs| == 0 || |mine| == 0 then Panicked
        else if FirstKey(theirs) == FirstKey(mine) then Rejected(DuplicateLabelKey)
        else CheckLabelKeys(p, stored[1..])
  }

  // ---------------------------------------------------------------- what it means

  /** Exactly one kind of selector, and at most one label key. */
  ghost predicate WellFormed(p: QuotaProfile) {
    (p.LabelSelector() <==> !p.NameSelector()) && AtMostOneKey(p)
  }

  /** Two different profiles that may be stored together. */
  ghost predicate Compatible(p: QuotaProfile, q: QuotaProfile) {
    && (p.NameSelector() && q.NameSelector() ==> p.spec.selector.matchName != q.spec.selector.matchName)
    && (p.LabelSelector() && q.LabelSelector() ==>
          && |p.spec.selector.matchLabels.value| == |q.spec.selector.matchLabels.value| == 1
          && p.spec.selector.matchLabels.value.Keys != q.spec.selector.matchLabels.value.Keys)
  }

  /** What every run of accepted writes keeps about the stored selectors. */
  ghost predicate SelectorInvariant(profiles: Profiles) {
    && KeysAgree(profiles)
    && (forall k :: k in profiles ==> WellFormed(profiles[k]))
    && (forall k, l :: k in profiles && l in profiles && k != l ==> Compatible(profiles[k], profiles[l]))
  }

  /** The result of a `List`: every stored profile once, in some order. */
  ghost predicate Listing(s: seq<QuotaProfile>, profiles: Profiles) {
    multiset(s) == multiset(profiles.Values)
  }

  lemma Listed(s: seq<QuotaProfile>, profiles: Profiles)
    requires Listing(s, profiles)
    ensures forall p :: p in s <==> p in profiles.Values
    ensures KeysAgree(profiles) ==> forall p :: p in s <==> p.key in profiles && profiles[p.key] == p
  {
    forall p ensures p in s <==> p in profiles.Values {
      assert p in s <==> p in multiset(s);
    }
  }

  lemma {:induction false} CheckLabelKeysExact(p: QuotaProfile, stored: seq<QuotaProfile>)
    requires p.LabelSelector() && !p.NameSelector() && AtMostOneKey(p)
    requires forall q :: q in stored ==> AtMostOneKey(q)
    ensures CheckLabelKeys(p, stored) == Accepted <==>
            forall q :: q in stored && q.key != p.key ==> Compatible(p, q)
  {
    if stored != [] {
      CheckLabelKeysExact(p, stored[1..]);
      assert stored == [stored[0]] + stored[1..];
      assert stored[0] in stored;
    }
  }

  /** Acceptance depends on the stored set only, not on the order of the list. */
  lemma ValidateExact(p: QuotaProfile, stored: seq<QuotaProfile>)
    requires forall q :: q in stored ==> AtMostOneKey(q)
    ensures Validate(p, stored) == Accepted <==>
            WellFormed(p) && forall q :: q in stored && q.key != p.key ==> Compatible(p, q)
  {
    if p.LabelSelector() && !p.NameSelector() && AtMostOneKey(p) {
      CheckLabelKeysExact(p, stored);
    } else if p.NameSelector() && !p.LabelSelector() {
      forall q | q in stored && q.key != p.key && !Compatible(p, q)
        ensures Validate(p, stored) != Accepted
      {
        var i :| 0 <= i < |stored| && stored[i] == q;
        assert SameNameElsewhere(p, stored[i]);
      }
    }
  }

  // ---------------------------------------------------------------- why a profile is refused

  /** Another label profile that `keys[0]` cannot be compared with. */
  ghost predicate Incomparable(p: QuotaProfile, q: QuotaProfile) {
    && q.key != p.key && p.LabelSelector() && q.LabelSelector()
    && (p.spec.selector.matchLabels == Some(map[]) || q.spec.selector.matchLabels == Some(map[]))
  }

  /** Another label profile with the same label key, whatever its value. */
  ghost predicate SameLabelKey(p: QuotaProfile, q: QuotaProfile) {
    && q.key != p.key && p.LabelSelector() && q.LabelSelector()
    && exists key, mine, theirs :: && p.spec.selector.matchLabels == Some(map[key := mine])
                                   && q.spec.selector.matchLabels == Some(map[key := theirs])
  }

  lemma KeysCompared(p: QuotaProfile, q: QuotaProfile)
    requires p.LabelSelector() && q.LabelSelector() && AtMostOneKey(p) && AtMostOneKey(q) && q.key != p.key
    ensures var mine, theirs := p.spec.selector.matchLabels.value, q.spec.selector.matchLabels.value;
            && (Incomparable(p, q) <==> |mine| == 0 || |theirs| == 0)
            && (SameLabelKey(p, q) <==> |mine| == 1 && |theirs| == 1 && FirstKey(mine) == FirstKey(theirs))
  {
    var mine, theirs := p.spec.selector.matchLabels.value, q.spec.selector.matchLabels.value;
    if |mine| == 1 && |theirs| == 1 && FirstKey(mine) == FirstKey(theirs) {
      var key := FirstKey(mine);
      assert mine == map[key := mine[key]] && theirs == map[key := theirs[key]];
    }
    if key, a, b :| mine == map[key := a] && theirs == map[key := b] {
      assert key in mine && key in theirs;
      assert mine.Keys == {key} && theirs.Keys == {key} && |mine.Keys| == 1 && |theirs.Keys| == 1;
    }
  }

  lemma {:induction false} CheckLabelKeysVerdict(p: QuotaProfile, stored: seq<QuotaProfile>)
    requires p.LabelSelector() && AtMostOneKey(p) && forall q :: q in stored ==> AtMostOneKey(q)
    ensures match CheckLabelKeys(p, stored)
            case Accepted => forall q :: q in stored ==> !Incomparable(p, q) && !SameLabelKey(p, q)
            case Panicked => exists q :: q in stored && Incomparable(p, q)
            case Rejected(reason) => reason == DuplicateLabelKey && exists q :: q in stored && SameLabelKey(p, q)
  {
    if stored != [] {
      var q := stored[0];
      assert q in stored && stored == [q] + stored[1..];
      CheckLabelKeysVerdict(p, stored[1..]);
      if q.LabelSelector() && q.key != p.key {
        KeysCompared(p, q);
      }
    }
  }

  /**
   The verdict on a write, reason by reason. Which of the other profiles clashes depends on the stored set
   only: a stored empty map stands alone, so no order of the list turns a duplicate key into a panic.
   */
  lemma ValidateVerdicts(profiles: Profiles, p: QuotaProfile, stored: seq<QuotaProfile>)
    requires SelectorInvariant(profiles) && Listing(stored, profiles)
    ensures forall q :: q in stored ==> AtMostOneKey(q)
    ensures var verdict := Validate(p, stored);
            && (verdict == Rejected(NoSelector) <==> !p.LabelSelector() && !p.NameSelector())
            && (verdict == Rejected(BothSelectors) <==> p.LabelSelector() && p.NameSelector())
            && (verdict == Rejected(TooManyLabels) <==> p.LabelSelector() && !p.NameSelector() && !AtMostOneKey(p))
            && (verdict == Rejected(DuplicateName)
                <==> && WellFormed(p) && p.NameSelector()
                     && exists k :: k in profiles && k != p.key
                                    && profiles[k].spec.selector.matchName == p.spec.selector.matchName)
            && (verdict == Rejected(DuplicateLabelKey)
                <==> WellFormed(p) && exists k :: k in profiles && SameLabelKey(p, profiles[k]))
            && (verdict == Panicked
                <==> WellFormed(p) && exists k :: k in profiles && Incomparable(p, profiles[k]))
  {
    Listed(stored, profiles);
    forall q | q in stored ensures AtMostOneKey(q) {
      assert WellFormed(profiles[q.key]);
    }
    if WellFormed(p) && p.LabelSelector() {
      LabelVerdicts(profiles, p, stored);
    } else if WellFormed(p) {
      NameVerdicts(profiles, p, stored);
    }
  }

  lemma LabelVerdicts(profiles: Profiles, p: QuotaProfile, stored: seq<QuotaProfile>)
    requires SelectorInvariant(profiles) && Listing(stored, profiles) && WellFormed(p) && p.LabelSelector()
    requires forall q :: q in stored ==> AtMostOneKey(q)
    ensures match Validate(p, stored)
            case Accepted =>
              forall k :: k in profiles ==> !Incomparable(p, profiles[k]) && !SameLabelKey(p, profiles[k])
            case Panicked =>
              && (exists k :: k in profiles && Incomparable(p, profiles[k]))
              && forall k :: k in profiles ==> !SameLabelKey(p, profiles[k])
            case Rejected(reason) =>
              && reason == DuplicateLabelKey
              && (exists k :: k in profiles && SameLabelKey(p, profiles[k]))
              && forall k :: k in profiles ==> !Incomparable(p, profiles[k])
  {
    Listed(stored, profiles);
    CheckLabelKeysVerdict(p, stored);
    forall k | k in profiles ensures profiles[k] in stored {
    }
    forall k, l | k in profiles && l in profiles && Incomparable(p, profiles[k]) ensures !SameLabelKey(p, profiles[l]) {
      NotBoth(profiles, p, k, l);
    }
  }

  lemma NotBoth(profiles: Profiles, p: QuotaProfile, k: ProfileKey, l: ProfileKey)
    requires SelectorInvariant(profiles) && AtMostOneKey(p) && k in profiles && l in profiles
    requires Incomparable(p, profiles[k])
    ensures !SameLabelKey(p, profiles[l])
  {
    assert WellFormed(profiles[k]) && WellFormed(profiles[l]);
    assert k != l ==> Compatible(profiles[k], profiles[l]);
    KeysCompared(p, profiles[k]);
    if profiles[l].LabelSelector() && l != p.key {
      KeysCompared(p, profiles[l]);
    }
  }

  lemma NameVerdicts(profiles: Profiles, p: QuotaProfile, stored: seq<QuotaProfile>)
    requires SelectorInvariant(profiles) && Listing(stored, profiles) && WellFormed(p) && p.NameSelector()
    requires forall q :: q in stored ==> AtMostOneKey(q)
    ensures Validate(p, stored)
            == if exists k :: k in profiles && k != p.key
                              && profiles[k].spec.selector.matchName == p.spec.selector.matchName
               then Rejected(DuplicateName) else Accepted
  {
    Listed(stored, profiles);
    if k :| k in profiles && k != p.key && profiles[k].spec.selector.matchName == p.spec.selector.matchName {
      assert profiles[k] in stored;
      var i :| 0 <= i < |stored| && stored[i] == profiles[k];
      assert SameNameElsewhere(p, stored[i]);
    }
    if i :| 0 <= i < |stored| && SameNameElsewhere(p, stored[i]) {
      assert stored[i] in stored && profiles[stored[i].key] == stored[i];
    }
  }

  lemma CompatibleSymmetric(p: QuotaProfile, q: QuotaProfile)
    ensures Compatible(p, q) <==> Compatible(q, p)
  {
  }

  lemma CompatibleWriteKeepsInvariant(profiles: Profiles, p: QuotaProfile)
    requires SelectorInvariant(profiles) && WellFormed(p)
    requires forall k :: k in profiles && k != p.key ==> Compatible(p, profiles[k])
    ensures SelectorInvariant(profiles[p.key := p])
  {
    var after := profiles[p.key := p];
    forall k, l | k in after && l in after && k != l ensures Compatible(after[k], after[l]) {
      if k == p.key {
        assert after[k] == p && after[l] == profiles[l];
      } else if l == p.key {
        assert after[l] == p && after[k] == profiles[k];
        CompatibleSymmetric(p, profiles[k]);
      } else {
        assert after[k] == profiles[k] && after[l] == profiles[l];
      }
    }
  }

  lemma InvariantMakesCompatible(profiles: Profiles, p: QuotaProfile)
    requires SelectorInvariant(profiles[p.key := p])
    ensures WellFormed(p)
    ensures forall k :: k in profiles && k != p.key ==> Compatible(p, profiles[k])
  {
    var after := profiles[p.key := p];
    assert after[p.key] == p;
    forall k | k in profiles && k != p.key ensures Compatible(p, profiles[k]) {
      assert after[k] == profiles[k];
      assert Compatible(after[p.key], after[k]);
    }
  }

  /** `validate` accepts a write exactly when the store with that write still satisfies the invariant. */
  lemma AcceptedWritesKeepInvariant(profiles: Profiles, p: QuotaProfile, stored: seq<QuotaProfile>)
    requires SelectorInvariant(profiles) && Listing(stored, profiles)
    ensures forall q :: q in stored ==> AtMostOneKey(q)
    ensures Validate(p, stored) == Accepted <==> SelectorInvariant(profiles[p.key := p])
  {
    Listed(stored, profiles);
    forall q | q in stored ensures AtMostOneKey(q) {
      assert WellFormed(profiles[q.key]);
    }
    ValidateExact(p, stored);
    if Validate(p, stored) == Accepted {
      forall k | k in profiles && k != p.key ensures Compatible(p, profiles[k]) {
        assert profiles[k] in stored;
      }
      CompatibleWriteKeepsInvariant(profiles, p);
    }
    if SelectorInvariant(profiles[p.key := p]) {
      InvariantMakesCompatible(profiles, p);
      forall q | q in stored && q.key != p.key ensures Compatible(p, q) {
        assert profiles[q.key] == q;
      }
    }
  }

  lemma RemovalKeepsInvariant(profiles: Profiles, key: ProfileKey)
    requires SelectorInvariant(profiles)
    ensures SelectorInvariant(profiles - {key})
  {
  }

  /** At most one stored profile names a given namespace. */
  lemma OneProfilePerName(profiles: Profiles, k: ProfileKey, l: ProfileKey, name: string)
    requires SelectorInvariant(profiles) && k in profiles && l in profiles
    requires profiles[k].spec.selector.matchName == Some(name) == profiles[l].spec.selector.matchName
    ensures k == l
  {
  }

  // ---------------------------------------------------------------- the controller's own writes

  /** What the Go client sends of an object: `omitempty` drops an empty `matchLabels`. */
  function Serialized(p: QuotaProfile): QuotaProfile {
    if p.spec.selector.matchLabels == Some(map[])
    then p.(spec := p.spec.(selector := p.spec.selector.(matchLabels := None)))
    else p
  }

  /** A profile whose label selector is present but has no key. */
  predicate EmptyLabelSelector(p: QuotaProfile) {
    p.spec.selector.matchLabels == Some(map[])
  }

  lemma ResubmissionKeepsInvariant(profiles: Profiles, key: ProfileKey, finalizer: bool)
    requires SelectorInvariant(profiles) && key in profiles
    ensures SelectorInvariant(profiles[key := Serialized(profiles[key].(finalizer := finalizer))])
            <==> !EmptyLabelSelector(profiles[key])
  {
    var p := Serialized(profiles[key].(finalizer := finalizer));
    var after := profiles[key := p];
    assert WellFormed(profiles[key]);
    if EmptyLabelSelector(profiles[key]) {
      assert !WellFormed(after[key]);
    } else {
      forall k | k in after ensures WellFormed(after[k]) {
        assert WellFormed(profiles[k]);
      }
      forall k, l | k in after && l in after && k != l ensures Compatible(after[k], after[l]) {
        assert Compatible(profiles[k], profiles[l]);
      }
    }
  }

  /**
   A stored profile re-sent with its spec unchanged, as for adding or removing the finalizer,
   is refused exactly when its label selector is the empty map.
   */
  lemma ProtocolWritesAdmitted(profiles: Profiles, key: ProfileKey, finalizer: bool, stored: seq<QuotaProfile>)
    requires SelectorInvariant(profiles) && Listing(stored, profiles) && key in profiles
    ensures forall q :: q in stored ==> AtMostOneKey(q)
    ensures Validate(Serialized(profiles[key].(finalizer := finalizer)), stored) == Accepted
            <==> !EmptyLabelSelector(profiles[key])
  {
    AcceptedWritesKeepInvariant(profiles, Serialized(profiles[key].(finalizer := finalizer)), stored);
    ResubmissionKeepsInvariant(profiles, key, finalizer);
  }

  /** An empty label map passes `validate` exactly while no other label profile is stored. */
  lemma EmptySelectorAccepted(profiles: Profiles, p: QuotaProfile, stored: seq<QuotaProfile>)
    requires SelectorInvariant(profiles) && Listing(stored, profiles)
    requires EmptyLabelSelector(p) && !p.NameSelector()
    ensures forall q :: q in stored ==> AtMostOneKey(q)
    ensures Validate(p, stored) == Accepted <==>
            forall k :: k in profiles && k != p.key ==> !profiles[k].LabelSelector()
  {
    Listed(stored, profiles);
    ValidateExact(p, stored);
    if Validate(p, stored) == Accepted {
      forall k | k in profiles && k != p.key ensures !profiles[k].LabelSelector() {
        assert profiles[k] in stored;
      }
    }
  }
}
