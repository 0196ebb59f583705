/**
 The edges of namespace admission: selectors on the labels that admission itself writes, label selectors
 without a key, and concrete clusters in which the documented winner is not chosen or the write is refused.
 */
module AdmissionBoundaries {
  import opened Strings
  import opened Api
  import opened ProfileAdmission
  import opened NamespaceAdmission

  // ---------------------------------------------------------------- selectors on the reserved labels

  /**
   Admission for any selectors: it gets stuck and fails, or ends on the settled profile. A name match is as
   documented. A label match is as documented exactly when it matches the incoming labels itself and
   outranks those profiles with a reserved selector that match them.
   */
  lemma OneKeyedAdmission(profiles: Profiles, s: seq<QuotaProfile>, name: string, labels: Labels, now: string)
    requires OneKeyed(profiles) && SortedListing(s, profiles) && Resolves(profiles, labels)
    ensures forall p :: p in s ==> AtMostOneKey(p)
    ensures var w := Settled(profiles, s, name, labels, now);
            && Decision(profiles, s, name, labels, now)
               == (if Stuck(profiles, s, name, labels, now)
                  then Denied(ProfileNotFound) else Admitted(Outcome(labels, w, now)))
            && (w.Some? ==> w.value in profiles)
            && (Documented(profiles, name, labels, w)
                <==> || w.None? || !NoLiveName(profiles, name)
                     || (&& LiveLabel(profiles[w.value], labels)
                         && forall r :: r in profiles ==>
                              !UnreservedSelector(profiles[r]) && LiveLabel(profiles[r], labels) ==>
                                Outranks(profiles[w.value], profiles[r])))
  {
    DecisionSettles(profiles, s, name, labels, now);
    SettledStored(profiles, s, name, labels, now);
    SettledByName(profiles, s, name, labels, now);
    if NoLiveName(profiles, name) {
      HolderDocumentedExact(profiles, s, name, labels, now);
    }
  }

  /** The value of label `key` on a namespace while `holder` is on it. */
  function CarriedValue(labels: Labels, holder: Option<ProfileKey>, now: string, key: string): Option<string> {
    if holder.Some? && key == PROFILE_LABEL then Some(ProfileID(holder.value))
    else if holder.Some? && key == TIMESTAMP_LABEL then Some(now)
    else if key in labels then Some(labels[key])
    else None
  }

  /**
   A live profile that selects `key=value` on a reserved label is a match, with its precedence, exactly when
   the value that is carried when its turn comes is the one it selects: the ID of the leader so far or the
   current time, and the incoming value while there is no leader.
   */
  lemma SeenReserved(profiles: Profiles, s: seq<QuotaProfile>, n: nat, j: nat, labels: Labels, now: string,
                     key: string, value: string)
    requires j < n <= |s| && !s[j].deleting && Reserved(key)
    requires s[j].spec.selector == NamespaceSelector(Some(map[key := value]), None)
    ensures Seen(profiles, s, n, labels, now)[j]
            == if CarriedValue(labels, HolderAfter(profiles, s, j, labels, now), now, key) == Some(value)
               then s[j].spec.precedence else -1
  {
    SeenAt(profiles, s, n, j, labels, now);
    ReservedKeysDiffer();
    var selector := s[j].spec.selector.matchLabels.value;
    assert key in selector && selector[key] == value;
  }

  /** The selector invariant leaves at most one profile on each reserved label. */
  lemma OneProfilePerLabel(profiles: Profiles, k: ProfileKey, l: ProfileKey, key: string)
    requires SelectorInvariant(profiles) && k in profiles && l in profiles
    requires profiles[k].LabelSelector() && profiles[k].spec.selector.matchLabels.value.Keys == {key}
    requires profiles[l].LabelSelector() && profiles[l].spec.selector.matchLabels.value.Keys == {key}
    ensures k == l
  {
  }

  /** The rank of the profile at position `i` against the labels carried by the leader of these ranks before it. */
  function RankAgainst(profiles: Profiles, s: seq<QuotaProfile>, ranks: seq<int>, i: nat, labels: Labels, now: string)
    : int
    requires i < |s| == |ranks|
  {
    var lead := LeadAfter(ranks, i, IncomingRank(profiles, labels));
    Rank(s[i], Carried(labels, HolderKey(profiles, s, labels, lead), now))
  }

  /** The incoming ranks with the entries at two positions `i <= j` replaced, one after the other. */
  function ReservedRanks(profiles: Profiles, s: seq<QuotaProfile>, i: nat, j: nat, labels: Labels, now: string)
    : (ranks: seq<int>)
    requires i < |s| && j < |s|
    ensures |ranks| == |s|
  {
    var first := Ranks(s, labels)[i := RankAgainst(profiles, s, Ranks(s, labels), i, labels, now)];
    first[j := RankAgainst(profiles, s, first, j, labels, now)]
  }

  /** Every profile but those at two positions is blind to what admission writes. */
  ghost predicate ReservedOnlyAt(s: seq<QuotaProfile>, i: nat, j: nat) {
    i <= j < |s| && forall m :: 0 <= m < |s| && m != i && m != j ==> UnreservedSelector(s[m])
  }

  /** The selector invariant leaves no more than one profile on each of the two labels. */
  lemma ReservedPositions(profiles: Profiles, s: seq<QuotaProfile>) returns (i: nat, j: nat)
    requires SelectorInvariant(profiles) && OneKeyed(profiles) && Listing(s, profiles) && s != []
    ensures ReservedOnlyAt(s, i, j)
  {
    var a := ReservedPosition(profiles, s, PROFILE_LABEL);
    var b := ReservedPosition(profiles, s, TIMESTAMP_LABEL);
    i, j := if a <= b then a else b, if a <= b then b else a;
    OneKeyedListing(profiles, s);
    forall m | 0 <= m < |s| && m != i && m != j ensures UnreservedSelector(s[m]) {
      assert s[m] in s;
      SelectsOne(s[m]);
    }
  }

  predicate Selects(p: QuotaProfile, key: string) {
    p.LabelSelector() && p.spec.selector.matchLabels.value.Keys == {key}
  }

  lemma SelectsOne(p: QuotaProfile)
    requires ExactlyOneKey(p) && !Selects(p, PROFILE_LABEL) && !Selects(p, TIMESTAMP_LABEL)
    ensures UnreservedSelector(p)
  {
    if p.LabelSelector() {
      var key := FirstKey(p.spec.selector.matchLabels.value);
    }
  }

  lemma ReservedPosition(profiles: Profiles, s: seq<QuotaProfile>, key: string) returns (i: nat)
    requires SelectorInvariant(profiles) && Listing(s, profiles) && s != []
    ensures i < |s| && forall m :: 0 <= m < |s| && m != i ==> !Selects(s[m], key)
  {
    i := 0;
    if k: nat :| k < |s| && Selects(s[k], key) {
      i := k;
      Listed(s, profiles);
      forall m | 0 <= m < |s| && m != i ensures !Selects(s[m], key) {
        if Selects(s[m], key) {
          assert s[m] in s && s[i] in s;
          OneProfilePerLabel(profiles, s[i].key, s[m].key, key);
          ListedOnce(s, profiles.Values, i, m);
        }
      }
    }
  }

  /** The fold sees the incoming ranks with these two entries replaced. */
  lemma SeenReservedOnlyAt(profiles: Profiles, s: seq<QuotaProfile>, i: nat, j: nat, labels: Labels, now: string)
    requires ReservedOnlyAt(s, i, j)
    ensures Seen(profiles, s, |s|, labels, now) == ReservedRanks(profiles, s, i, j, labels, now)
  {
    var seen, incoming := Seen(profiles, s, |s|, labels, now), IncomingRank(profiles, labels);
    var ranks := Ranks(s, labels);
    forall m | 0 <= m < |s| && m != i && m != j ensures seen[m] == ranks[m] {
      SeenUnreserved(profiles, s, |s|, m, labels, now);
    }
    SeenAgainst(profiles, s, ranks, i, labels, now);
    var first := ranks[i := seen[i]];
    SeenAgainst(profiles, s, first, j, labels, now);
  }

  lemma SeenAgainst(profiles: Profiles, s: seq<QuotaProfile>, ranks: seq<int>, i: nat, labels: Labels, now: string)
    requires i < |s| == |ranks|
    requires forall m :: 0 <= m < i ==> ranks[m] == Seen(profiles, s, |s|, labels, now)[m]
    ensures Seen(profiles, s, |s|, labels, now)[i] == RankAgainst(profiles, s, ranks, i, labels, now)
  {
    SeenAt(profiles, s, |s|, i, labels, now);
    var before := Seen(profiles, s, i, labels, now);
    assert before[..i] == before == Seen(profiles, s, |s|, labels, now)[..i] == ranks[..i];
    LeadAfterPrefix(before, ranks, i, IncomingRank(profiles, labels));
  }

  /**
   Admission for every store that the selector invariant allows with one key per label selector, dotted names
   included, decided on ranks that two replacements give: it fails exactly when a dotted leader of these ranks is
   followed by another match; otherwise it ends on a live name match, and without one on the leader of these
   ranks, which is as documented exactly when it matches the incoming labels and outranks those of the two
   profiles that match them too.
   */
  lemma ReservedAdmission(profiles: Profiles, s: seq<QuotaProfile>, i: nat, j: nat, name: string, labels: Labels,
                          now: string)
    requires OneKeyed(profiles) && SortedListing(s, profiles) && Resolves(profiles, labels) && ReservedOnlyAt(s, i, j)
    ensures forall p :: p in s ==> AtMostOneKey(p)
    ensures var decision := Decision(profiles, s, name, labels, now);
            var ranks := ReservedRanks(profiles, s, i, j, labels, now);
            var w := HolderOf(profiles, s, labels, ranks);
            && (decision.Denied? <==> DottedLeader(profiles, s, ranks, name, labels))
            && (decision.Denied? ==> decision.error == ProfileNotFound)
            && (decision.Admitted? && !NoLiveName(profiles, name) ==>
                  exists k :: && k in profiles && LiveName(profiles[k], name)
                              && decision.labels == WithProfile(labels, k, now))
            && (decision.Admitted? && NoLiveName(profiles, name) ==>
                  && decision.labels == Outcome(labels, w, now)
                  && (w.Some? ==> w.value in profiles)
                  && (Documented(profiles, name, labels, w)
                      <==> w.Some? ==> && LiveLabel(profiles[w.value], labels)
                                       && (LiveLabel(s[i], labels) ==> Outranks(profiles[w.value], s[i]))
                                       && (LiveLabel(s[j], labels) ==> Outranks(profiles[w.value], s[j]))))
  {
    OneKeyedListing(profiles, s);
    OneKeyedAdmission(profiles, s, name, labels, now);
    SettledByName(profiles, s, name, labels, now);
    SeenReservedOnlyAt(profiles, s, i, j, labels, now);
    StuckIsDottedLeader(profiles, s, name, labels, now);
    if NoLiveName(profiles, name) {
      ReservedDocumented(profiles, s, i, j, name, labels, now);
    }
  }

  lemma ReservedDocumented(profiles: Profiles, s: seq<QuotaProfile>, i: nat, j: nat, name: string, labels: Labels,
                           now: string)
    requires OneKeyed(profiles) && SortedListing(s, profiles) && ReservedOnlyAt(s, i, j) && NoLiveName(profiles, name)
    ensures var w := HolderAfter(profiles, s, |s|, labels, now);
            && (w.Some? ==> w.value in profiles)
            && (Documented(profiles, name, labels, w)
                <==> w.Some? ==> && LiveLabel(profiles[w.value], labels)
                                 && (LiveLabel(s[i], labels) ==> Outranks(profiles[w.value], s[i]))
                                 && (LiveLabel(s[j], labels) ==> Outranks(profiles[w.value], s[j])))
  {
    OneKeyedListing(profiles, s);
    HolderStored(profiles, s, |s|, labels, now);
    HolderDocumentedExact(profiles, s, name, labels, now);
    assert s[i] in s && s[j] in s;
    forall r | r in profiles && !UnreservedSelector(profiles[r]) ensures profiles[r] == s[i] || profiles[r] == s[j] {
      var m := Position(profiles, s, labels, r);
    }
  }

  // ---------------------------------------------------------------- an empty label selector in the store

  /** Every other profile listed beside an empty label selector selects by name. */
  lemma EmptySelectorStandsAlone(profiles: Profiles, s: seq<QuotaProfile>, i: nat, e: nat)
    requires SelectorInvariant(profiles) && Listing(s, profiles) && i < e < |s| && EmptyLabelSelector(s[e])
    ensures s[i].NameSelector()
  {
    Listed(s, profiles);
    assert s[i] in s && s[e] in s;
    assert WellFormed(profiles[s[i].key]);
    if s[i].key == s[e].key {
      ListedOnce(s, profiles.Values, i, e);
    } else {
      assert Compatible(profiles[s[i].key], profiles[s[e].key]);
    }
  }

  lemma SoundListing(profiles: Profiles, s: seq<QuotaProfile>)
    requires SelectorInvariant(profiles) && Listing(s, profiles)
    ensures forall p :: p in s ==> AtMostOneKey(p) && WellFormed(p)
  {
    Listed(s, profiles);
    forall p | p in s ensures AtMostOneKey(p) && WellFormed(p) {
      assert WellFormed(profiles[p.key]);
    }
  }

  lemma {:induction false} EmptySelectorFold(profiles: Profiles, s: seq<QuotaProfile>, i: nat, e: nat, name: string,
                                             labels: Labels, now: string)
    requires SelectorInvariant(profiles) && Listing(s, profiles) && i <= e < |s|
    requires !s[e].deleting && EmptyLabelSelector(s[e])
    ensures forall p :: p in s ==> AtMostOneKey(p)
    ensures var decision := Fold(profiles, s, i, name, labels, false, now);
            if exists m :: i <= m < e && LiveName(s[m], name)
            then decision.Admitted? else decision == Denied(IndexOutOfRange)
    decreases e - i
  {
    SoundListing(profiles, s);
    assert s[i] in s;
    if i < e {
      EmptySelectorStandsAlone(profiles, s, i, e);
      if !LiveName(s[i], name) {
        EmptySelectorFold(profiles, s, i + 1, e, name, labels, now);
      }
    }
  }

  /**
   While a live profile with an empty label selector is stored, admission fails for every namespace except
   those that an older live profile names.
   */
  lemma EmptySelectorAdmission(profiles: Profiles, s: seq<QuotaProfile>, e: nat, name: string, labels: Labels,
                               now: string)
    requires SelectorInvariant(profiles) && Listing(s, profiles) && e < |s|
    requires !s[e].deleting && EmptyLabelSelector(s[e])
    ensures forall p :: p in s ==> AtMostOneKey(p)
    ensures Decision(profiles, s, name, labels, now).Denied? <==> forall m :: 0 <= m < e ==> !LiveName(s[m], name)
    ensures Decision(profiles, s, name, labels, now).Denied? ==>
            Decision(profiles, s, name, labels, now).error == IndexOutOfRange
  {
    EmptySelectorFold(profiles, s, 0, e, name, labels, now);
  }

  // ---------------------------------------------------------------- concrete clusters

  function LabelProfile(name: string, created: nat, precedence: uint16, key: string, value: string): QuotaProfile {
    QuotaProfile(ProfileKey("o", name), created, false, true,
                 QuotaProfileSpec(NamespaceSelector(Some(map[key := value]), None), precedence, [], []))
  }

  lemma LabelProfileIsRegular(name: string, created: nat, precedence: uint16, key: string, value: string)
    requires |name| > 0 && |key| == 1
    ensures var p := LabelProfile(name, created, precedence, key, value);
            && ExactlyOneKey(p) && UnreservedSelector(p) && p.key.name != ""
            && ('.' !in name ==> DotFree(p.key))
  {
    assert |PROFILE_LABEL| > 1 && |TIMESTAMP_LABEL| > 1;
  }

  lemma PairIsSelectable(p: QuotaProfile, q: QuotaProfile)
    requires p.key != q.key && p.key.name != "" && q.key.name != ""
    requires ExactlyOneKey(p) && ExactlyOneKey(q) && UnreservedSelector(p) && UnreservedSelector(q)
    ensures Selectable(map[p.key := p, q.key := q])
    ensures DotFree(p.key) && DotFree(q.key) ==> Regular(map[p.key := p, q.key := q])
  {
  }

  /** What makes two profiles a shadowed namespace: the strong one is on the label, only the weak one matches. */
  lemma PairShadows(profiles: Profiles, strong: QuotaProfile, weak: QuotaProfile, name: string, labels: Labels)
    requires profiles == map[strong.key := strong, weak.key := weak] && strong.key != weak.key
    requires !strong.NameSelector() && !weak.NameSelector() && LiveLabel(weak, labels) && !LiveLabel(strong, labels)
    requires weak.spec.precedence < strong.spec.precedence && Assigned(labels) == Some(strong.key)
    ensures Shadowed(profiles, name, labels)
  {
    assert profiles[weak.key] == weak && profiles[strong.key] == strong;
  }

  lemma PairListing(a: QuotaProfile, b: QuotaProfile)
    requires a.key != b.key && a.created <= b.created
    ensures SortedListing([a, b], map[a.key := a, b.key := b])
  {
    var profiles := map[a.key := a, b.key := b];
    assert profiles[a.key] == a && profiles[b.key] == b;
    assert profiles.Values == {a, b};
  }

  /**
   A namespace that lost its label `e` keeps the stronger profile selected by `e=d`, although only the
   weaker profile for `t=w` still matches it.
   */
  lemma ShadowedExample()
    ensures var strong, weak := LabelProfile("a", 1, 5, "e", "d"), LabelProfile("b", 2, 3, "t", "w");
            var profiles := map[strong.key := strong, weak.key := weak];
            && Regular(profiles)
            && Shadowed(profiles, "n", map["t" := "w", PROFILE_LABEL := "o.a"])
  {
    var strong, weak := LabelProfile("a", 1, 5, "e", "d"), LabelProfile("b", 2, 3, "t", "w");
    var profiles := map[strong.key := strong, weak.key := weak];
    var labels := map["t" := "w", PROFILE_LABEL := "o.a"];
    LabelProfileIsRegular("a", 1, 5, "e", "d");
    LabelProfileIsRegular("b", 2, 3, "t", "w");
    assert "a"[0] == 'a' && "t"[0] == 't' && |"e"| == 1 && |PROFILE_LABEL| > 1;
    PairIsSelectable(strong, weak);
    assert ProfileID(strong.key) == "o.a";
    ProfileIDRoundTrip(strong.key);
    assert "e" in strong.spec.selector.matchLabels.value && "e" !in labels;
    assert LiveLabel(weak, labels);
    PairShadows(profiles, strong, weak, "n", labels);
  }

  /**
   A namespace that carries no profile label at all is refused: the fold writes a dotted key and cannot look it
   up.
   */
  lemma DottedCreationExample(now: string)
    ensures var a, c := LabelProfile("a.b", 1, 0, "e", "d"), LabelProfile("c", 2, 0, "t", "w");
            var profiles, labels: Labels := map[a.key := a, c.key := c], map["e" := "d", "t" := "w"];
            && Selectable(profiles) && SortedListing([a, c], profiles) && AtMostOneKey(a) && AtMostOneKey(c)
            && Decision(profiles, [a, c], "n", labels, now) == Denied(ProfileNotFound)
  {
    var a, c := LabelProfile("a.b", 1, 0, "e", "d"), LabelProfile("c", 2, 0, "t", "w");
    var labels: Labels := map["e" := "d", "t" := "w"];
    LabelProfileIsRegular("a.b", 1, 0, "e", "d");
    LabelProfileIsRegular("c", 2, 0, "t", "w");
    assert "a.b"[1] == '.' && "t"[0] == 't' && |"e"| == 1 && |PROFILE_LABEL| > 1;
    PairIsSelectable(a, c);
    PairListing(a, c);
    DottedPair(map[a.key := a, c.key := c], a, c, "n", labels, now);
  }

  lemma DottedPair(profiles: Profiles, a: QuotaProfile, c: QuotaProfile, name: string, labels: Labels, now: string)
    requires Selectable(profiles) && SortedListing([a, c], profiles) && PROFILE_LABEL !in labels
    requires !DotFree(a.key) && LiveLabel(a, labels) && LiveLabel(c, labels)
    ensures AtMostOneKey(a) && AtMostOneKey(c)
    ensures Decision(profiles, [a, c], name, labels, now) == Denied(ProfileNotFound)
  {
    var s := [a, c];
    FreshAdmission(profiles, s, name, labels, now);
    assert a in s && c in s;
    assert Leading(Ranks(s, labels), 1, None, At(0));
    assert !DotFree(s[0].key) && LiveLabel(s[1], labels) && forall m :: 0 <= m <= 1 ==> !LiveName(s[m], name);
    assert DottedLeader(profiles, s, Ranks(s, labels), name, labels);
  }

  /** A later profile that matches what an earlier one wrote takes the namespace over. */
  lemma Takeover(profiles: Profiles, a: QuotaProfile, b: QuotaProfile, name: string, labels: Labels, now: string)
    requires a.key in profiles && profiles[a.key] == a && DotFree(a.key)
    requires a.LabelSelector() && b.LabelSelector() && ExactlyOneKey(a) && ExactlyOneKey(b)
    requires LiveLabel(a, labels) && PROFILE_LABEL !in labels
    requires LiveLabel(b, WithProfile(labels, a.key, now)) && a.spec.precedence <= b.spec.precedence
    ensures AtMostOneKey(a) && AtMostOneKey(b)
    ensures Decision(profiles, [a, b], name, labels, now) == Admitted(WithProfile(labels, b.key, now))
  {
    var first := WithProfile(labels, a.key, now);
    LabelTest(a, labels);
    LabelTest(b, first);
    AssignedWithProfile(labels, a.key, now);
    Overwrites(labels, a.key, b.key, now);
    assert Visit(profiles, a, name, labels, false, now) == Continue(first, true);
    assert Visit(profiles, b, name, first, true, now) == Continue(WithProfile(labels, b.key, now), true);
    var s := [a, b];
    assert Fold(profiles, s, 2, name, WithProfile(labels, b.key, now), true, now)
           == Admitted(WithProfile(labels, b.key, now));
    assert Fold(profiles, s, 1, name, first, true, now)
           == Fold(profiles, s, 2, name, WithProfile(labels, b.key, now), true, now);
  }

  /**
   A selector on the operator's own label sees what the fold has written so far: here it takes over a
   namespace whose incoming labels it does not match.
   */
  lemma ReservedSelectorExample(now: string)
    ensures var a, b := LabelProfile("a", 1, 0, "t", "w"), LabelProfile("b", 2, 0, PROFILE_LABEL, "o.a");
            var profiles, labels: Labels := map[a.key := a, b.key := b], map["t" := "w"];
            && SortedListing([a, b], profiles) && AtMostOneKey(a) && AtMostOneKey(b)
            && Decision(profiles, [a, b], "n", labels, now) == Admitted(WithProfile(labels, b.key, now))
            && LiveLabel(a, labels) && !LiveLabel(b, labels)
  {
    var a, b := LabelProfile("a", 1, 0, "t", "w"), LabelProfile("b", 2, 0, PROFILE_LABEL, "o.a");
    var labels: Labels := map["t" := "w"];
    assert "a"[0] == 'a' && "b"[0] == 'b' && |"t"| == 1 && |PROFILE_LABEL| > 1;
    PairListing(a, b);
    assert LabelMatch(a, labels);
    assert PROFILE_LABEL !in labels;
    ReservedKeysDiffer();
    assert ProfileID(a.key) == "o.a";
    assert LabelMatch(b, WithProfile(labels, a.key, now));
    assert map[a.key := a, b.key := b][a.key] == a;
    Takeover(map[a.key := a, b.key := b], a, b, "n", labels, now);
  }
}
