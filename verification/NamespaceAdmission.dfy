/**
 Namespace admission (internal/webhook/v1/namespace_webhook.go): `Default` runs on every create and
 update of a Namespace, sorts the stored profiles by creation time and folds over them, settling
 conflicts pairwise against whatever profile label the namespace carries at that moment.
 */
module NamespaceAdmission {
  import opened Strings
  import opened Api
  import opened ProfileAdmission

  datatype Error = ProfileNotFound | IndexOutOfRange

  datatype Admission = Admitted(labels: Labels) | Denied(error: Error)

  // ---------------------------------------------------------------- one pass over the sorted list

  datatype Progress = Continue(labels: Labels, matched: bool) | Done(labels: Labels) | Failed(error: Error)

  /** What the loop body of `Default` does with profile `p`. */
  function Visit(profiles: Profiles, p: QuotaProfile, name: string, labels: Labels, matched: bool,
                 now: string): Progress
    requires AtMostOneKey(p)
  {
    if p.deleting then Continue(labels, matched)
    else if p.NameSelector() then
      (if p.spec.selector.matchName.value == name then Done(WithProfile(labels, p.key, now))
       else Continue(labels, matched))
    else if p.LabelSelector() then
      var selector := p.spec.selector.matchLabels.value;
      if |selector| == 0 then Failed(IndexOutOfRange)
      else
        var key := FirstKey(selector);
        if key !in labels || labels[key] != selector[key] then Continue(labels, matched)
        else if PROFILE_LABEL !in labels || SplitProfileID(labels[PROFILE_LABEL]) == p.key
        then Continue(WithProfile(labels, p.key, now), true)
        else match Resolved(profiles, p, labels)
          case None => Failed(ProfileNotFound)
          case Some(winner) => Continue(WithProfile(labels, winner, now), true)
    else Continue(labels, matched)
  }

  /** The profile `resolveConflict` leaves on a labelled namespace, if the labelled profile is stored. */
  function Resolved(profiles: Profiles, p: QuotaProfile, labels: Labels): Option<ProfileKey>
    requires PROFILE_LABEL in labels
  {
    var existing := SplitProfileID(labels[PROFILE_LABEL]);
    if existing !in profiles then None
    else if profiles[existing].spec.precedence > p.spec.precedence then Some(profiles[existing].key)
    else Some(p.key)
  }

  function Fold(profiles: Profiles, s: seq<QuotaProfile>, i: nat, name: string, labels: Labels, matched: bool,
                now: string): Admission
    requires i <= |s| && forall p :: p in s ==> AtMostOneKey(p)
    decreases |s| - i
  {
    if i == |s| then Admitted(if matched then labels else WithoutProfile(labels))
    else
      match Visit(profiles, s[i], name, labels, matched, now)
      case Continue(labels', matched') => Fold(profiles, s, i + 1, name, labels', matched', now)
      case Done(labels') => Admitted(labels')
      case Failed(e) => Denied(e)
  }

  /** The outcome of `Default` for the profile list in the order `s`. */
  function Decision(profiles: Profiles, s: seq<QuotaProfile>, name: string, labels: Labels, now: string): Admission
    requires forall p :: p in s ==> AtMostOneKey(p)
  {
    Fold(profiles, s, 0, name, labels, false, now)
  }

  // ---------------------------------------------------------------- the webhook itself

  ghost predicate SortedByCreation(s: seq<QuotaProfile>) {
    forall i, j :: 0 <= i < j < |s| ==> s[i].created <= s[j].created
  }

  /** All that `List` followed by `sort.Slice` promises: every profile once, older before newer. */
  ghost predicate SortedListing(s: seq<QuotaProfile>, profiles: Profiles) {
    Listing(s, profiles) && SortedByCreation(s)
  }

  method ListProfiles(profiles: Profiles) returns (items: array<QuotaProfile>)
    ensures fresh(items) && Listing(items[..], profiles)
  {
    var rest, found: seq<QuotaProfile> := profiles.Values, [];
    while rest != {}
      invariant multiset(found) + multiset(rest) == multiset(profiles.Values)
      decreases rest
    {
      var p :| p in rest;
      found, rest := found + [p], rest - {p};
    }
    items := new QuotaProfile[|found|](i requires 0 <= i < |found| => found[i]);
    assert items[..] == found;
  }

  method SwapWithPrevious(a: array<QuotaProfile>, j: int)
    requires 0 < j < a.Length
    modifies a
    ensures a[..] == old(a[..])[j - 1 := old(a[j])][j := old(a[j - 1])]
    ensures multiset(a[..]) == multiset(old(a[..]))
  {
    a[j - 1], a[j] := a[j], a[j - 1];
  }

  /** Moves element `i` down into the sorted prefix before it. */
  method Sink(a: array<QuotaProfile>, i: nat)
    requires i < a.Length && SortedByCreation(a[..i])
    modifies a
    ensures multiset(a[..]) == multiset(old(a[..]))
    ensures SortedByCreation(a[..i + 1])
  {
    var j: nat := i;
    assert forall x, y :: 0 <= x < y < i ==> a[..i][x].created <= a[..i][y].created;
    while j > 0 && a[j].created < a[j - 1].created
      invariant j <= i
      invariant multiset(a[..]) == multiset(old(a[..]))
      invariant forall x, y :: 0 <= x < y <= i && y != j ==> a[x].created <= a[y].created
    {
      label before:
      SwapWithPrevious(a, j);
      assert forall x :: 0 <= x < a.Length ==>
        a[x] == a[..][x] == old@before(if x == j - 1 then a[j] else if x == j then a[j - 1] else a[x]);
      j := j - 1;
    }
  }

  /** In-place and, to its callers, no more than `sort.Slice`: a permutation in order of creation. */
  method SortByCreation(a: array<QuotaProfile>)
    modifies a
    ensures multiset(a[..]) == multiset(old(a[..]))
    ensures SortedByCreation(a[..])
  {
    for i := 0 to a.Length
      invariant multiset(a[..]) == multiset(old(a[..]))
      invariant SortedByCreation(a[..i])
    {
      Sink(a, i);
    }
    assert a[..a.Length] == a[..];
  }

  method ResolveConflict(profiles: Profiles, p: QuotaProfile, ns: Namespace, now: string) returns (error: Option<Error>)
    requires PROFILE_LABEL in ns.labels
    modifies ns
    ensures match Resolved(profiles, p, old(ns.labels))
            case None => error == Some(ProfileNotFound) && ns.labels == old(ns.labels)
            case Some(winner) => error == None && ns.labels == WithProfile(old(ns.labels), winner, now)
  {
    var existing := SplitProfileID(ns.labels[PROFILE_LABEL]);
    if existing !in profiles {
      return Some(ProfileNotFound);
    }
    var existingProfile := profiles[existing];
    if existingProfile.spec.precedence > p.spec.precedence {
      ns.SetQuotaProfileLabels(existingProfile.key, now);
      return None;
    }
    ns.SetQuotaProfileLabels(p.key, now);
    return None;
  }

  /** The body of the loop of `Default`; `done` says that it returned. */
  method Consider(profiles: Profiles, p: QuotaProfile, ns: Namespace, was: bool, now: string)
    returns (matched: bool, done: bool, error: Option<Error>)
    requires AtMostOneKey(p)
    modifies ns
    ensures match Visit(profiles, p, ns.name, old(ns.labels), was, now)
            case Continue(labels, matched') => !done && error == None && ns.labels == labels && matched == matched'
            case Done(labels) => done && error == None && ns.labels == labels
            case Failed(e) => done && error == Some(e)
  {
    matched, done, error := was, false, None;
    if p.deleting {
      return;
    }
    if p.NameSelector() {
      if p.spec.selector.matchName.value == ns.name {
        ns.SetQuotaProfileLabels(p.key, now);
        done := true;
      }
    } else if p.LabelSelector() {
      var selector := p.spec.selector.matchLabels.value;
      if |selector| == 0 {
        done, error := true, Some(IndexOutOfRange);
        return;
      }
      var key := FirstKey(selector);
      if key !in ns.labels {
        return;
      }
      if ns.labels[key] == selector[key] {
        if PROFILE_LABEL !in ns.labels {
          ns.SetQuotaProfileLabels(p.key, now);
          matched := true;
        } else {
          var existing := SplitProfileID(ns.labels[PROFILE_LABEL]);
          if existing == p.key {
            ns.SetQuotaProfileLabels(p.key, now);
            matched := true;
          } else {
            error := ResolveConflict(profiles, p, ns, now);
            if error.Some? {
              done := true;
              return;
            }
            matched := true;
          }
        }
      }
    }
  }

  /** `Default`: the labels end as `Decision` says for the order `sorted` the list was put in. */
  method Default(profiles: Profiles, ns: Namespace, now: string)
    returns (error: Option<Error>, ghost sorted: seq<QuotaProfile>)
    requires forall k :: k in profiles ==> AtMostOneKey(profiles[k])
    modifies ns
    ensures SortedListing(sorted, profiles) && forall p :: p in sorted ==> AtMostOneKey(p)
    ensures match Decision(profiles, sorted, ns.name, old(ns.labels), now)
            case Admitted(labels) => error == None && ns.labels == labels
            case Denied(e) => error == Some(e)
  {
    var items := ListProfiles(profiles);
    SortByCreation(items);
    sorted := items[..];
    Listed(sorted, profiles);
    ghost var decision := Decision(profiles, sorted, ns.name, ns.labels, now);
    var matched := false;
    for i := 0 to items.Length
      invariant items[..] == sorted
      invariant Fold(profiles, sorted, i, ns.name, ns.labels, matched, now) == decision
    {
      var p, done := items[i], false;
      assert p == sorted[i] && AtMostOneKey(p);
      matched, done, error := Consider(profiles, p, ns, matched, now);
      if done {
        return error, sorted;
      }
    }
    if !matched {
      ns.RemoveLabel();
    }
    return None, sorted;
  }

  // ---------------------------------------------------------------- the documented rule

  predicate NameMatch(p: QuotaProfile, name: string) {
    p.spec.selector.matchName == Some(name)
  }

  /** Every label of the selector is on the namespace. */
  predicate LabelMatch(p: QuotaProfile, labels: Labels) {
    && p.LabelSelector() && !p.NameSelector()
    && forall k :: k in p.spec.selector.matchLabels.value ==>
         k in labels && labels[k] == p.spec.selector.matchLabels.value[k]
  }

  predicate LiveName(p: QuotaProfile, name: string) { !p.deleting && NameMatch(p, name) }

  predicate LiveLabel(p: QuotaProfile, labels: Labels) { !p.deleting && LabelMatch(p, labels) }

  /** The selector does not look at the two keys that admission itself writes. */
  predicate UnreservedSelector(p: QuotaProfile) {
    p.LabelSelector() ==> forall k :: k in p.spec.selector.matchLabels.value ==> !Reserved(k)
  }

  /** Every label selector has exactly one key, and every stored object has a name. */
  ghost predicate OneKeyed(profiles: Profiles) {
    && KeysAgree(profiles) && ProfileKey("", "") !in profiles
    && forall k :: k in profiles ==> ExactlyOneKey(profiles[k])
  }

  /** In addition no selector is on a reserved label. */
  ghost predicate Selectable(profiles: Profiles) {
    OneKeyed(profiles) && forall k :: k in profiles ==> UnreservedSelector(profiles[k])
  }

  /** What a store of well-behaved profiles satisfies: sound selectors, and keys that survive the label. */
  ghost predicate Regular(profiles: Profiles) {
    Selectable(profiles) && forall k :: k in profiles ==> DotFree(k)
  }

  ghost predicate NoLiveName(profiles: Profiles, name: string) {
    forall k :: k in profiles ==> !LiveName(profiles[k], name)
  }

  /**
   The rule of the documentation: a live name match wins; otherwise the live label match of highest
   precedence, the most recently created among equals; otherwise no profile.
   */
  ghost predicate Documented(profiles: Profiles, name: string, labels: Labels, winner: Option<ProfileKey>) {
    match winner
    case Some(k) =>
      && k in profiles
      && (|| LiveName(profiles[k], name)
          || (&& NoLiveName(profiles, name) && LiveLabel(profiles[k], labels)
              && forall l :: l in profiles && LiveLabel(profiles[l], labels) ==> Outranks(profiles[k], profiles[l])))
    case None =>
      && NoLiveName(profiles, name)
      && forall l :: l in profiles ==> !LiveLabel(profiles[l], labels)
  }

  /** Higher precedence, or the same precedence and not older. */
  predicate Outranks(p: QuotaProfile, q: QuotaProfile) {
    || q.spec.precedence < p.spec.precedence
    || (q.spec.precedence == p.spec.precedence && q.created <= p.created)
  }

  /** The incoming label names a stored profile, or there is none. */
  ghost predicate Resolves(profiles: Profiles, labels: Labels) {
    Assigned(labels).Some? ==> Assigned(labels).value in profiles
  }

  /**
   The label admission writes for a stored profile resolves to a stored profile again exactly when its name has
   no dot.
   */
  lemma WrittenLabelResolves(profiles: Profiles, k: ProfileKey, labels: Labels, now: string)
    requires k in profiles && ProfileKey("", "") !in profiles
    ensures Resolves(profiles, WithProfile(labels, k, now)) <==> DotFree(k)
  {
    ReservedKeysDiffer();
    ProfileIDRoundTrip(k);
    SplitConcat(k.namespace, k.name, '.');
    assert ProfileID(k) == k.namespace + ['.'] + k.name;
    SplitSingle(k.namespace, '.');
    SplitSingle(k.name, '.');
  }

  /** Only labels match, and the profile `k` has a precedence strictly above that of every live match. */
  ghost predicate Shadows(profiles: Profiles, k: ProfileKey, name: string, labels: Labels)
    requires k in profiles
  {
    && NoLiveName(profiles, name)
    && (exists l :: l in profiles && LiveLabel(profiles[l], labels))
    && forall l :: l in profiles && LiveLabel(profiles[l], labels) ==>
         profiles[l].spec.precedence < profiles[k].spec.precedence
  }

  /** The incoming label names a stored profile that shadows the live matches. */
  ghost predicate Shadowed(profiles: Profiles, name: string, labels: Labels) {
    && Assigned(labels).Some? && Assigned(labels).value in profiles
    && Shadows(profiles, Assigned(labels).value, name, labels)
  }

  function Outcome(labels: Labels, winner: Option<ProfileKey>, now: string): Labels {
    match winner
    case Some(k) => WithProfile(labels, k, now)
    case None => WithoutProfile(labels)
  }

  // ---------------------------------------------------------------- the fold refines the rule

  /** Writing the reserved keys does not change which profiles match. */
  lemma MatchUnaffected(p: QuotaProfile, labels: Labels, key: ProfileKey, now: string)
    requires UnreservedSelector(p)
    ensures LabelMatch(p, WithProfile(labels, key, now)) <==> LabelMatch(p, labels)
  {
  }

  /** For a one-key selector the handler's test of `keys[0]` is the label match. */
  lemma LabelTest(p: QuotaProfile, labels: Labels)
    requires p.LabelSelector() && !p.NameSelector() && ExactlyOneKey(p)
    ensures var selector := p.spec.selector.matchLabels.value;
            var key := FirstKey(selector);
            key in labels && labels[key] == selector[key] <==> LabelMatch(p, labels)
  {
    var key := FirstKey(p.spec.selector.matchLabels.value);
    assert key in p.spec.selector.matchLabels.value.Keys;
  }

  function Incoming(profiles: Profiles, labels: Labels): Option<QuotaProfile> {
    var current := Assigned(labels);
    if current.Some? && current.value in profiles then Some(profiles[current.value]) else None
  }

  /** The precedence of a live label match, and -1 for every other profile. */
  function Rank(p: QuotaProfile, labels: Labels): int {
    if LiveLabel(p, labels) then p.spec.precedence else -1
  }

  function Ranks(s: seq<QuotaProfile>, labels: Labels): (ranks: seq<int>)
    ensures |ranks| == |s| && forall i :: 0 <= i < |s| ==> ranks[i] == Rank(s[i], labels)
  {
    seq(|s|, i requires 0 <= i < |s| => Rank(s[i], labels))
  }

  /** Who holds the namespace during the fold: nobody yet, the incoming profile, or the profile at a position. */
  datatype Lead = Nobody | Held | At(k: nat)

  function NextLead(ranks: seq<int>, i: nat, incoming: Option<int>, lead: Lead): Lead
    requires i < |ranks| && (lead.At? ==> lead.k < |ranks|)
  {
    var rival := if lead.At? then Some(ranks[lead.k]) else incoming;
    if ranks[i] < 0 then lead
    else if rival.Some? && rival.value > ranks[i] then (if lead.At? then lead else Held)
    else At(i)
  }

  function LeadAfter(ranks: seq<int>, i: nat, incoming: Option<int>): (lead: Lead)
    requires i <= |ranks|
    ensures lead.At? ==> lead.k < |ranks|
    ensures lead.Held? ==> incoming.Some?
  {
    if i == 0 then Nobody else NextLead(ranks, i - 1, incoming, LeadAfter(ranks, i - 1, incoming))
  }

  /** What the pairwise rule amounts to: the last of the strongest, or an incoming profile above them all. */
  ghost predicate Leading(ranks: seq<int>, i: nat, incoming: Option<int>, lead: Lead)
    requires i <= |ranks|
  {
    match lead
    case Nobody => forall j :: 0 <= j < i ==> ranks[j] < 0
    case Held =>
      && incoming.Some?
      && (forall j :: 0 <= j < i ==> ranks[j] < incoming.value)
      && exists j :: 0 <= j < i && ranks[j] >= 0
    case At(k) =>
      && k < i && ranks[k] >= 0
      && (forall j :: 0 <= j < i ==> ranks[j] < ranks[k] || (ranks[j] == ranks[k] && j <= k))
      && (incoming.Some? ==> incoming.value <= ranks[k])
  }

  lemma {:induction false} LeadAfterLeads(ranks: seq<int>, i: nat, incoming: Option<int>)
    requires i <= |ranks|
    ensures Leading(ranks, i, incoming, LeadAfter(ranks, i, incoming))
  {
    if i > 0 {
      LeadAfterLeads(ranks, i - 1, incoming);
    }
  }

  /** The three cases exclude each other, so the leader is the only one. */
  lemma LeadingIsUnique(ranks: seq<int>, i: nat, incoming: Option<int>, a: Lead, b: Lead)
    requires i <= |ranks| && Leading(ranks, i, incoming, a) && Leading(ranks, i, incoming, b)
    ensures a == b
  {
  }

  function HolderKey(profiles: Profiles, s: seq<QuotaProfile>, labels: Labels, lead: Lead): Option<ProfileKey>
    requires lead.At? ==> lead.k < |s|
    requires lead.Held? ==> Incoming(profiles, labels).Some?
  {
    match lead
    case Nobody => None
    case Held => Some(Incoming(profiles, labels).value.key)
    case At(k) => Some(s[k].key)
  }

  function IncomingRank(profiles: Profiles, labels: Labels): Option<int> {
    var incoming := Incoming(profiles, labels);
    if incoming.Some? then Some(incoming.value.spec.precedence) else None
  }

  /** The key on the namespace after the profiles with these ranks. */
  function HolderOf(profiles: Profiles, s: seq<QuotaProfile>, labels: Labels, ranks: seq<int>): Option<ProfileKey>
    requires |ranks| <= |s|
  {
    HolderKey(profiles, s, labels, LeadAfter(ranks, |ranks|, IncomingRank(profiles, labels)))
  }

  function Carried(labels: Labels, holder: Option<ProfileKey>, now: string): Labels {
    if holder.Some? then WithProfile(labels, holder.value, now) else labels
  }

  /**
   The ranks of the first `i` profiles as the fold sees them: each is matched against the labels that the
   namespace carries when its turn comes.
   */
  function Seen(profiles: Profiles, s: seq<QuotaProfile>, i: nat, labels: Labels, now: string): (ranks: seq<int>)
    requires i <= |s|
    ensures |ranks| == i
  {
    if i == 0 then []
    else
      var before := Seen(profiles, s, i - 1, labels, now);
      before + [Rank(s[i - 1], Carried(labels, HolderOf(profiles, s, labels, before), now))]
  }

  function HolderAfter(profiles: Profiles, s: seq<QuotaProfile>, i: nat, labels: Labels,
                       now: string): Option<ProfileKey>
    requires i <= |s|
  {
    HolderOf(profiles, s, labels, Seen(profiles, s, i, labels, now))
  }

  /** Who leads after `i` profiles depends on their ranks only. */
  lemma {:induction false} LeadAfterPrefix(a: seq<int>, b: seq<int>, i: nat, incoming: Option<int>)
    requires i <= |a| && i <= |b| && a[..i] == b[..i]
    ensures LeadAfter(a, i, incoming) == LeadAfter(b, i, incoming)
  {
    if i > 0 {
      assert a[..i - 1] == a[..i][..i - 1] && b[..i - 1] == b[..i][..i - 1];
      assert a[i - 1] == a[..i][i - 1] && b[i - 1] == b[..i][i - 1];
      LeadAfterPrefix(a, b, i - 1, incoming);
      LeadAfterLeads(a, i - 1, incoming);
      var lead := LeadAfter(a, i - 1, incoming);
      if lead.At? {
        assert a[lead.k] == a[..i][lead.k] && b[lead.k] == b[..i][lead.k];
      }
    }
  }

  /** The rank at one position, and the ranks before it. */
  lemma {:induction false} SeenAt(profiles: Profiles, s: seq<QuotaProfile>, n: nat, j: nat, labels: Labels, now: string)
    requires j < n <= |s|
    ensures Seen(profiles, s, n, labels, now)[..j] == Seen(profiles, s, j, labels, now)
    ensures Seen(profiles, s, n, labels, now)[j]
            == Rank(s[j], Carried(labels, HolderAfter(profiles, s, j, labels, now), now))
  {
    var before := Seen(profiles, s, n - 1, labels, now);
    var ranks := Seen(profiles, s, n, labels, now);
    assert ranks[..n - 1] == before;
    if j < n - 1 {
      SeenAt(profiles, s, n - 1, j, labels, now);
      assert ranks[..j] == ranks[..n - 1][..j];
    }
  }

  lemma Overwrites(labels: Labels, a: ProfileKey, b: ProfileKey, now: string)
    ensures WithProfile(WithProfile(labels, a, now), b, now) == WithProfile(labels, b, now)
  {
  }

  lemma OneKeyedListing(profiles: Profiles, s: seq<QuotaProfile>)
    requires OneKeyed(profiles) && Listing(s, profiles)
    ensures forall p :: p in s ==> AtMostOneKey(p) && ExactlyOneKey(p) && p.key in profiles && profiles[p.key] == p
  {
    Listed(s, profiles);
  }

  /** A label that resolves has two parts without a dot, so the profile it names is dot-free. */
  lemma IncomingIsDotFree(profiles: Profiles, labels: Labels)
    requires KeysAgree(profiles) && Incoming(profiles, labels).Some?
    ensures DotFree(Incoming(profiles, labels).value.key)
  {
    SplitProfileIDDotFree(labels[PROFILE_LABEL]);
  }

  /** The next holder when `p` is reached with `holder` on the namespace and can be compared with it. */
  function NextHolder(profiles: Profiles, p: QuotaProfile, labels: Labels, holder: Option<ProfileKey>, now: string)
    : Option<ProfileKey>
  {
    var rival := if holder.Some? then holder else Assigned(labels);
    if !LiveLabel(p, Carried(labels, holder, now)) then holder
    else if rival.Some? && rival.value in profiles && profiles[rival.value].spec.precedence > p.spec.precedence
      then rival
    else Some(p.key)
  }

  /** One visit of a profile that does not match by name, with a holder that can be looked up again. */
  lemma VisitLabel(profiles: Profiles, p: QuotaProfile, name: string, labels: Labels, holder: Option<ProfileKey>,
                   now: string)
    requires KeysAgree(profiles) && ExactlyOneKey(p) && Resolves(profiles, labels) && !LiveName(p, name)
    requires p.key in profiles && profiles[p.key] == p
    requires holder.Some? ==> holder.value in profiles
    requires holder.Some? && LiveLabel(p, Carried(labels, holder, now)) ==> DotFree(holder.value)
    ensures var next := NextHolder(profiles, p, labels, holder, now);
            Visit(profiles, p, name, Carried(labels, holder, now), holder.Some?, now)
            == Continue(Carried(labels, next, now), next.Some?)
  {
    var carried := Carried(labels, holder, now);
    if !p.deleting && !p.NameSelector() && p.LabelSelector() {
      LabelTest(p, carried);
    }
    if holder.Some? && LiveLabel(p, carried) {
      AssignedWithProfile(labels, holder.value, now);
      Overwrites(labels, holder.value, p.key, now);
      Overwrites(labels, holder.value, holder.value, now);
    }
  }

  /** A label match cannot be compared with a holder whose key has a dot: the lookup fails. */
  lemma VisitStuck(profiles: Profiles, p: QuotaProfile, name: string, labels: Labels, holder: ProfileKey, now: string)
    requires ExactlyOneKey(p) && ProfileKey("", "") !in profiles && p.key in profiles
    requires holder in profiles && !DotFree(holder)
    requires LiveLabel(p, WithProfile(labels, holder, now))
    ensures Visit(profiles, p, name, WithProfile(labels, holder, now), true, now) == Failed(ProfileNotFound)
  {
    WrittenLabelResolves(profiles, holder, labels, now);
    LabelTest(p, WithProfile(labels, holder, now));
  }

  lemma VisitName(profiles: Profiles, p: QuotaProfile, name: string, labels: Labels, holder: Option<ProfileKey>,
                  now: string)
    requires LiveName(p, name) && AtMostOneKey(p)
    ensures Visit(profiles, p, name, Carried(labels, holder, now), holder.Some?, now)
            == Done(WithProfile(labels, p.key, now))
  {
    if holder.Some? {
      Overwrites(labels, holder.value, p.key, now);
    }
  }

  lemma HolderStored(profiles: Profiles, s: seq<QuotaProfile>, i: nat, labels: Labels, now: string)
    requires KeysAgree(profiles) && Listing(s, profiles) && i <= |s|
    ensures var holder := HolderAfter(profiles, s, i, labels, now);
            holder.Some? ==> holder.value in profiles
  {
    Listed(s, profiles);
    var ranks := Seen(profiles, s, i, labels, now);
    var lead := LeadAfter(ranks, i, IncomingRank(profiles, labels));
    if lead.At? {
      assert s[lead.k] in s;
    }
  }

  lemma HolderAdvances(profiles: Profiles, s: seq<QuotaProfile>, i: nat, labels: Labels, now: string)
    requires KeysAgree(profiles) && Resolves(profiles, labels) && Listing(s, profiles) && i < |s|
    ensures HolderAfter(profiles, s, i + 1, labels, now)
            == NextHolder(profiles, s[i], labels, HolderAfter(profiles, s, i, labels, now), now)
  {
    Listed(s, profiles);
    var before, ranks := Seen(profiles, s, i, labels, now), Seen(profiles, s, i + 1, labels, now);
    var incoming := IncomingRank(profiles, labels);
    assert ranks[..i] == before[..i];
    LeadAfterPrefix(ranks, before, i, incoming);
    LeadAfterLeads(before, i, incoming);
    var lead := LeadAfter(before, i, incoming);
    if lead.At? {
      assert s[lead.k] in s && ranks[lead.k] == before[lead.k];
      SeenAt(profiles, s, i, lead.k, labels, now);
    }
    assert LeadAfter(ranks, i + 1, incoming) == NextLead(ranks, i, incoming, lead);
  }

  // ---------------------------------------------------------------- where the fold stops

  /** The fold at position `i`, with the leader so far on the namespace. */
  ghost function FoldFrom(profiles: Profiles, s: seq<QuotaProfile>, i: nat, name: string, labels: Labels, now: string)
    : Admission
    requires i <= |s| && forall p :: p in s ==> AtMostOneKey(p)
  {
    var holder := HolderAfter(profiles, s, i, labels, now);
    Fold(profiles, s, i, name, Carried(labels, holder, now), holder.Some?, now)
  }

  /** A label match is reached while the leader's key has a dot. */
  ghost predicate StuckAt(profiles: Profiles, s: seq<QuotaProfile>, j: int, labels: Labels, now: string)
    requires 0 <= j < |s|
  {
    var holder := HolderAfter(profiles, s, j, labels, now);
    holder.Some? && !DotFree(holder.value) && LiveLabel(s[j], Carried(labels, holder, now))
  }

  /** That happens before any live name match is reached. */
  ghost predicate Stuck(profiles: Profiles, s: seq<QuotaProfile>, name: string, labels: Labels, now: string) {
    exists j :: 0 <= j < |s| && StuckAt(profiles, s, j, labels, now)
                && forall m :: 0 <= m <= j ==> !LiveName(s[m], name)
  }

  /** The fold passes over position `i`. */
  ghost predicate Passes(profiles: Profiles, s: seq<QuotaProfile>, i: int, name: string, labels: Labels, now: string)
    requires 0 <= i < |s|
  {
    !LiveName(s[i], name) && !StuckAt(profiles, s, i, labels, now)
  }

  lemma FoldAdvances(profiles: Profiles, s: seq<QuotaProfile>, i: nat, name: string, labels: Labels, now: string)
    requires OneKeyed(profiles) && Resolves(profiles, labels) && Listing(s, profiles)
    requires i < |s| && Passes(profiles, s, i, name, labels, now)
    ensures forall p :: p in s ==> AtMostOneKey(p)
    ensures FoldFrom(profiles, s, i, name, labels, now) == FoldFrom(profiles, s, i + 1, name, labels, now)
  {
    OneKeyedListing(profiles, s);
    assert s[i] in s;
    HolderStored(profiles, s, i, labels, now);
    VisitLabel(profiles, s[i], name, labels, HolderAfter(profiles, s, i, labels, now), now);
    HolderAdvances(profiles, s, i, labels, now);
  }

  lemma {:induction false} FoldPasses(profiles: Profiles, s: seq<QuotaProfile>, i: nat, j: nat, name: string,
                                      labels: Labels, now: string)
    requires OneKeyed(profiles) && Resolves(profiles, labels) && Listing(s, profiles) && i <= j <= |s|
    requires forall m :: i <= m < j ==> Passes(profiles, s, m, name, labels, now)
    ensures forall p :: p in s ==> AtMostOneKey(p)
    ensures FoldFrom(profiles, s, i, name, labels, now) == FoldFrom(profiles, s, j, name, labels, now)
    decreases j - i
  {
    OneKeyedListing(profiles, s);
    if i < j {
      FoldAdvances(profiles, s, i, name, labels, now);
      FoldPasses(profiles, s, i + 1, j, name, labels, now);
    }
  }

  /** Without a name match ahead, and without getting stuck, the fold ends on the last leader. */
  lemma FoldLabels(profiles: Profiles, s: seq<QuotaProfile>, i: nat, name: string, labels: Labels, now: string)
    requires OneKeyed(profiles) && Resolves(profiles, labels) && Listing(s, profiles) && i <= |s|
    requires forall m :: i <= m < |s| ==> Passes(profiles, s, m, name, labels, now)
    ensures forall p :: p in s ==> AtMostOneKey(p)
    ensures FoldFrom(profiles, s, i, name, labels, now)
            == Admitted(Outcome(labels, HolderAfter(profiles, s, |s|, labels, now), now))
  {
    FoldPasses(profiles, s, i, |s|, name, labels, now);
  }

  /** A name match that lies ahead ends the fold on itself, whatever was settled before it. */
  lemma FoldName(profiles: Profiles, s: seq<QuotaProfile>, i: nat, m: nat, name: string, labels: Labels, now: string)
    requires OneKeyed(profiles) && Resolves(profiles, labels) && Listing(s, profiles) && i <= m < |s|
    requires LiveName(s[m], name) && forall j :: i <= j < m ==> Passes(profiles, s, j, name, labels, now)
    ensures forall p :: p in s ==> AtMostOneKey(p)
    ensures FoldFrom(profiles, s, i, name, labels, now) == Admitted(WithProfile(labels, s[m].key, now))
  {
    OneKeyedListing(profiles, s);
    FoldPasses(profiles, s, i, m, name, labels, now);
    VisitName(profiles, s[m], name, labels, HolderAfter(profiles, s, m, labels, now), now);
  }

  /** Where it gets stuck the fold fails. */
  lemma FoldStuck(profiles: Profiles, s: seq<QuotaProfile>, i: nat, j: nat, name: string, labels: Labels, now: string)
    requires OneKeyed(profiles) && Resolves(profiles, labels) && Listing(s, profiles) && i <= j < |s|
    requires StuckAt(profiles, s, j, labels, now)
    requires forall m :: i <= m < j ==> Passes(profiles, s, m, name, labels, now)
    ensures forall p :: p in s ==> AtMostOneKey(p)
    ensures FoldFrom(profiles, s, i, name, labels, now) == Denied(ProfileNotFound)
  {
    OneKeyedListing(profiles, s);
    FoldPasses(profiles, s, i, j, name, labels, now);
    HolderStored(profiles, s, j, labels, now);
    assert s[j] in s;
    VisitStuck(profiles, s[j], name, labels, HolderAfter(profiles, s, j, labels, now).value, now);
  }

  lemma {:induction false} FirstStuck(profiles: Profiles, s: seq<QuotaProfile>, i: nat, labels: Labels, now: string)
    returns (j: nat)
    requires i < |s| && StuckAt(profiles, s, i, labels, now)
    ensures j <= i && StuckAt(profiles, s, j, labels, now)
    ensures forall m :: 0 <= m < j ==> !StuckAt(profiles, s, m, labels, now)
  {
    if m :| 0 <= m < i && StuckAt(profiles, s, m, labels, now) {
      j := FirstStuck(profiles, s, m, labels, now);
    } else {
      j := i;
    }
  }

  /** Position `m` holds the first live name match of the list. */
  ghost predicate FirstName(s: seq<QuotaProfile>, name: string, m: int) {
    0 <= m < |s| && LiveName(s[m], name) && forall j :: 0 <= j < m ==> !LiveName(s[j], name)
  }

  lemma {:induction false} FirstNameExists(s: seq<QuotaProfile>, name: string, i: nat)
    requires i < |s| && LiveName(s[i], name)
    ensures exists m :: FirstName(s, name, m)
  {
    if j :| 0 <= j < i && LiveName(s[j], name) {
      FirstNameExists(s, name, j);
    } else {
      assert FirstName(s, name, i);
    }
  }

  /** The profile `Decision` settles on when the incoming label resolves and the fold does not get stuck. */
  ghost function Settled(profiles: Profiles, s: seq<QuotaProfile>, name: string, labels: Labels, now: string)
    : Option<ProfileKey>
  {
    if exists m :: FirstName(s, name, m) then
      var m :| FirstName(s, name, m);
      Some(s[m].key)
    else HolderAfter(profiles, s, |s|, labels, now)
  }

  /** With any incoming label that resolves: the fold gets stuck and fails, or ends on the settled profile. */
  lemma DecisionSettles(profiles: Profiles, s: seq<QuotaProfile>, name: string, labels: Labels, now: string)
    requires OneKeyed(profiles) && Resolves(profiles, labels) && Listing(s, profiles)
    ensures forall p :: p in s ==> AtMostOneKey(p)
    ensures Decision(profiles, s, name, labels, now)
            == if Stuck(profiles, s, name, labels, now) then Denied(ProfileNotFound)
               else Admitted(Outcome(labels, Settled(profiles, s, name, labels, now), now))
  {
    OneKeyedListing(profiles, s);
    assert HolderAfter(profiles, s, 0, labels, now) == None;
    if Stuck(profiles, s, name, labels, now) {
      var i :| 0 <= i < |s| && StuckAt(profiles, s, i, labels, now)
               && forall m :: 0 <= m <= i ==> !LiveName(s[m], name);
      var j := FirstStuck(profiles, s, i, labels, now);
      FoldStuck(profiles, s, 0, j, name, labels, now);
    } else if exists m :: FirstName(s, name, m) {
      var m :| FirstName(s, name, m) && Settled(profiles, s, name, labels, now) == Some(s[m].key);
      FoldName(profiles, s, 0, m, name, labels, now);
    } else {
      forall j | 0 <= j < |s| ensures !LiveName(s[j], name) {
        if LiveName(s[j], name) {
          FirstNameExists(s, name, j);
        }
      }
      FoldLabels(profiles, s, 0, name, labels, now);
    }
  }

  lemma SettledStored(profiles: Profiles, s: seq<QuotaProfile>, name: string, labels: Labels, now: string)
    requires KeysAgree(profiles) && Listing(s, profiles)
    ensures var w := Settled(profiles, s, name, labels, now); w.Some? ==> w.value in profiles
  {
    Listed(s, profiles);
    HolderStored(profiles, s, |s|, labels, now);
    if exists m :: FirstName(s, name, m) {
      var m :| FirstName(s, name, m) && Settled(profiles, s, name, labels, now) == Some(s[m].key);
      assert s[m] in s;
    }
  }

  /** The first name match of the list is the live name match of the store, and there is one of both or of neither. */
  lemma SettledByName(profiles: Profiles, s: seq<QuotaProfile>, name: string, labels: Labels, now: string)
    requires KeysAgree(profiles) && Listing(s, profiles)
    ensures !NoLiveName(profiles, name) ==>
              var w := Settled(profiles, s, name, labels, now);
              w.Some? && w.value in profiles && LiveName(profiles[w.value], name)
    ensures NoLiveName(profiles, name) ==>
              Settled(profiles, s, name, labels, now) == HolderAfter(profiles, s, |s|, labels, now)
  {
    Listed(s, profiles);
    if exists m :: FirstName(s, name, m) {
      var m :| FirstName(s, name, m) && Settled(profiles, s, name, labels, now) == Some(s[m].key);
      assert s[m] in s;
    } else {
      forall k | k in profiles ensures !LiveName(profiles[k], name) {
        var i :| 0 <= i < |s| && s[i] == profiles[k];
        if LiveName(s[i], name) {
          FirstNameExists(s, name, i);
        }
      }
    }
  }

  /** Where a stored profile stands in the listing. */
  lemma Position(profiles: Profiles, s: seq<QuotaProfile>, labels: Labels, l: ProfileKey) returns (i: nat)
    requires KeysAgree(profiles) && Listing(s, profiles) && l in profiles
    ensures i < |s| && s[i] == profiles[l] && Ranks(s, labels)[i] == Rank(profiles[l], labels)
  {
    Listed(s, profiles);
    i :| 0 <= i < |s| && s[i] == profiles[l];
  }

  // ---------------------------------------------------------------- the settled profile against the rule

  /** For a selector that is not on a reserved label the fold sees the match with the incoming labels. */
  lemma SeenUnreserved(profiles: Profiles, s: seq<QuotaProfile>, n: nat, j: nat, labels: Labels, now: string)
    requires j < n <= |s| && UnreservedSelector(s[j])
    ensures Seen(profiles, s, n, labels, now)[j] == Rank(s[j], labels)
  {
    SeenAt(profiles, s, n, j, labels, now);
    var holder := HolderAfter(profiles, s, j, labels, now);
    if holder.Some? {
      MatchUnaffected(s[j], labels, holder.value, now);
    }
  }

  /** Until there is a holder the fold sees the incoming labels, whatever the selectors. */
  lemma NobodyMatches(profiles: Profiles, s: seq<QuotaProfile>, j: nat, labels: Labels, now: string)
    requires j < |s| && HolderAfter(profiles, s, |s|, labels, now) == None
    ensures Rank(s[j], labels) < 0
  {
    var ranks, incoming := Seen(profiles, s, |s|, labels, now), IncomingRank(profiles, labels);
    LeadAfterLeads(ranks, |s|, incoming);
    SeenAt(profiles, s, |s|, j, labels, now);
    var before := Seen(profiles, s, j, labels, now);
    forall i | 0 <= i < j ensures before[i] < 0 {
      assert before[i] == ranks[..j][i] == ranks[i];
    }
    NobodyLeads(before, incoming);
  }

  lemma NobodyLeads(ranks: seq<int>, incoming: Option<int>)
    requires forall i :: 0 <= i < |ranks| ==> ranks[i] < 0
    ensures LeadAfter(ranks, |ranks|, incoming) == Nobody
  {
    LeadAfterLeads(ranks, |ranks|, incoming);
  }

  /** The last leader is not outranked by any profile whose match the fold cannot change. */
  lemma HolderOutranks(profiles: Profiles, s: seq<QuotaProfile>, labels: Labels, now: string, l: ProfileKey)
    requires KeysAgree(profiles) && SortedListing(s, profiles)
    requires l in profiles && UnreservedSelector(profiles[l]) && LiveLabel(profiles[l], labels)
    ensures var w := HolderAfter(profiles, s, |s|, labels, now);
            w.Some? && w.value in profiles && Outranks(profiles[w.value], profiles[l])
  {
    Listed(s, profiles);
    HolderStored(profiles, s, |s|, labels, now);
    var ranks, incoming := Seen(profiles, s, |s|, labels, now), IncomingRank(profiles, labels);
    var i := Position(profiles, s, labels, l);
    SeenUnreserved(profiles, s, |s|, i, labels, now);
    LeadAfterLeads(ranks, |s|, incoming);
    var lead := LeadAfter(ranks, |s|, incoming);
    if lead.At? {
      assert s[lead.k] in s;
      SeenAt(profiles, s, |s|, lead.k, labels, now);
    }
  }

  /**
   When nothing matches by name, the last leader follows the documentation exactly when it matches the
   incoming labels itself and outranks the matches whose selector is on a reserved label.
   */
  lemma HolderDocumentedExact(profiles: Profiles, s: seq<QuotaProfile>, name: string, labels: Labels, now: string)
    requires KeysAgree(profiles) && SortedListing(s, profiles) && NoLiveName(profiles, name)
    ensures match HolderAfter(profiles, s, |s|, labels, now)
            case None => Documented(profiles, name, labels, None)
            case Some(k) =>
              && k in profiles
              && (Documented(profiles, name, labels, Some(k))
                  <==> && LiveLabel(profiles[k], labels)
                       && forall r :: r in profiles ==>
                            !UnreservedSelector(profiles[r]) && LiveLabel(profiles[r], labels) ==>
                              Outranks(profiles[k], profiles[r]))
  {
    HolderStored(profiles, s, |s|, labels, now);
    match HolderAfter(profiles, s, |s|, labels, now)
    case None =>
      forall l | l in profiles ensures !LiveLabel(profiles[l], labels) {
        var i := Position(profiles, s, labels, l);
        NobodyMatches(profiles, s, i, labels, now);
      }
    case Some(k) =>
      forall l | l in profiles && UnreservedSelector(profiles[l]) && LiveLabel(profiles[l], labels)
        ensures Outranks(profiles[k], profiles[l])
      {
        HolderOutranks(profiles, s, labels, now, l);
      }
  }

  /** Without reserved selectors the last leader matches exactly when the incoming profile does not shadow it. */
  lemma HolderMatchesOrShadows(profiles: Profiles, s: seq<QuotaProfile>, name: string, labels: Labels, now: string)
    requires Selectable(profiles) && SortedListing(s, profiles) && NoLiveName(profiles, name)
    ensures var w := HolderAfter(profiles, s, |s|, labels, now);
            && (Shadowed(profiles, name, labels) ==> w == Assigned(labels))
            && (Shadowed(profiles, name, labels)
                <==> w.Some? && w.value in profiles && !LiveLabel(profiles[w.value], labels))
  {
    Listed(s, profiles);
    HolderStored(profiles, s, |s|, labels, now);
    var ranks, incoming := Seen(profiles, s, |s|, labels, now), IncomingRank(profiles, labels);
    LeadAfterLeads(ranks, |s|, incoming);
    match LeadAfter(ranks, |s|, incoming)
    case Nobody =>
      forall l | l in profiles ensures !LiveLabel(profiles[l], labels) {
        var i := Position(profiles, s, labels, l);
        SeenUnreserved(profiles, s, |s|, i, labels, now);
      }
    case Held => HeldShadows(profiles, s, name, labels, now);
    case At(k) => AtMatches(profiles, s, name, labels, now, k);
  }

  lemma HeldShadows(profiles: Profiles, s: seq<QuotaProfile>, name: string, labels: Labels, now: string)
    requires Selectable(profiles) && Listing(s, profiles) && NoLiveName(profiles, name)
    requires Leading(Seen(profiles, s, |s|, labels, now), |s|, IncomingRank(profiles, labels), Held)
    ensures Shadowed(profiles, name, labels) && !LiveLabel(profiles[Assigned(labels).value], labels)
  {
    Listed(s, profiles);
    var ranks := Seen(profiles, s, |s|, labels, now);
    var j :| 0 <= j < |s| && ranks[j] >= 0;
    assert s[j] in s;
    SeenUnreserved(profiles, s, |s|, j, labels, now);
    assert LiveLabel(profiles[s[j].key], labels);
    var e := Assigned(labels).value;
    forall l | l in profiles && LiveLabel(profiles[l], labels)
      ensures profiles[l].spec.precedence < profiles[e].spec.precedence
    {
      var i := Position(profiles, s, labels, l);
      SeenUnreserved(profiles, s, |s|, i, labels, now);
      assert ranks[i] < IncomingRank(profiles, labels).value;
    }
  }

  lemma AtMatches(profiles: Profiles, s: seq<QuotaProfile>, name: string, labels: Labels, now: string, k: nat)
    requires Selectable(profiles) && Listing(s, profiles) && NoLiveName(profiles, name)
    requires Leading(Seen(profiles, s, |s|, labels, now), |s|, IncomingRank(profiles, labels), At(k))
    ensures LiveLabel(s[k], labels) && !Shadowed(profiles, name, labels)
  {
    Listed(s, profiles);
    assert s[k] in s;
    SeenUnreserved(profiles, s, |s|, k, labels, now);
    assert LiveLabel(profiles[s[k].key], labels);
  }

  /** The settled profile follows the documentation exactly when the incoming label does not shadow it. */
  lemma SettledDocumented(profiles: Profiles, s: seq<QuotaProfile>, name: string, labels: Labels, now: string)
    requires Selectable(profiles) && SortedListing(s, profiles)
    ensures var w := Settled(profiles, s, name, labels, now);
            && (w.Some? ==> w.value in profiles)
            && (Documented(profiles, name, labels, w) <==> !Shadowed(profiles, name, labels))
            && (Shadowed(profiles, name, labels) ==> w == Assigned(labels))
  {
    SettledStored(profiles, s, name, labels, now);
    SettledByName(profiles, s, name, labels, now);
    if NoLiveName(profiles, name) {
      HolderDocumentedExact(profiles, s, name, labels, now);
      HolderMatchesOrShadows(profiles, s, name, labels, now);
    }
  }

  // ---------------------------------------------------------------- main results

  /** Dot-free keys never get stuck. */
  lemma RegularNeverStuck(profiles: Profiles, s: seq<QuotaProfile>, name: string, labels: Labels, now: string)
    requires Regular(profiles) && Listing(s, profiles)
    ensures !Stuck(profiles, s, name, labels, now)
  {
    forall j | 0 <= j < |s| ensures !StuckAt(profiles, s, j, labels, now) {
      HolderStored(profiles, s, j, labels, now);
    }
  }

  /** Over regular profiles admission succeeds, changes no other label, and its outcome can be read off the label. */
  lemma AdmissionOutcome(profiles: Profiles, s: seq<QuotaProfile>, name: string, labels: Labels, now: string)
    requires Regular(profiles) && SortedListing(s, profiles) && Resolves(profiles, labels)
    ensures forall p :: p in s ==> AtMostOneKey(p)
    ensures Decision(profiles, s, name, labels, now).Admitted?
    ensures var admitted := Decision(profiles, s, name, labels, now).labels;
            && admitted == Outcome(labels, Assigned(admitted), now)
            && (Assigned(admitted).Some? ==> Assigned(admitted).value in profiles)
            && (Documented(profiles, name, labels, Assigned(admitted)) <==> !Shadowed(profiles, name, labels))
            && (Shadowed(profiles, name, labels) ==> Assigned(admitted) == Assigned(labels))
  {
    DecisionSettles(profiles, s, name, labels, now);
    RegularNeverStuck(profiles, s, name, labels, now);
    SettledDocumented(profiles, s, name, labels, now);
    var w := Settled(profiles, s, name, labels, now);
    if w.Some? {
      AssignedWithProfile(labels, w.value, now);
    }
  }

  /**
   For these ranks, non-negative for a label match: an earlier match whose key has a dot leads, over the incoming
   profile too, when a later label match is reached, before any name match.
   */
  ghost predicate DottedLeader(profiles: Profiles, s: seq<QuotaProfile>, ranks: seq<int>, name: string, labels: Labels)
    requires |ranks| == |s|
  {
    exists k: nat, j: nat ::
      && k < j < |s| && !DotFree(s[k].key) && ranks[j] >= 0
      && Leading(ranks, j, IncomingRank(profiles, labels), At(k))
      && forall m :: 0 <= m <= j ==> !LiveName(s[m], name)
  }

  /**
   Admission of a namespace whose label, if any, names a stored profile, with no selector on a reserved
   label: it fails exactly when a dotted leader is followed by another label match, and otherwise settles on the
   documented winner, unless the incoming profile shadows it, in which case that profile is kept.
   */
  lemma SelectableAdmission(profiles: Profiles, s: seq<QuotaProfile>, name: string, labels: Labels, now: string)
    requires Selectable(profiles) && SortedListing(s, profiles) && Resolves(profiles, labels)
    ensures forall p :: p in s ==> AtMostOneKey(p)
    ensures var decision := Decision(profiles, s, name, labels, now);
            && (decision.Denied? <==> DottedLeader(profiles, s, Ranks(s, labels), name, labels))
            && (decision.Denied? ==> decision.error == ProfileNotFound)
            && (decision.Admitted? ==>
                  exists w :: && decision.labels == Outcome(labels, w, now)
                              && (Documented(profiles, name, labels, w) <==> !Shadowed(profiles, name, labels))
                              && (Shadowed(profiles, name, labels) ==> w == Assigned(labels)))
  {
    DecisionSettles(profiles, s, name, labels, now);
    SettledDocumented(profiles, s, name, labels, now);
    SelectableListing(profiles, s);
    SeenIsRanks(profiles, s, |s|, labels, now);
    assert Ranks(s, labels)[..|s|] == Ranks(s, labels);
    StuckIsDottedLeader(profiles, s, name, labels, now);
  }

  /** A namespace without a profile label: no incoming profile leads, and none shadows the winner. */
  lemma FreshAdmission(profiles: Profiles, s: seq<QuotaProfile>, name: string, labels: Labels, now: string)
    requires Selectable(profiles) && SortedListing(s, profiles) && PROFILE_LABEL !in labels
    ensures forall p :: p in s ==> AtMostOneKey(p)
    ensures var decision := Decision(profiles, s, name, labels, now);
            && (decision.Denied? <==> DottedLeader(profiles, s, Ranks(s, labels), name, labels))
            && (decision.Denied? ==> decision.error == ProfileNotFound)
            && (decision.Admitted? ==>
                  exists w :: Documented(profiles, name, labels, w) && decision.labels == Outcome(labels, w, now))
  {
    SelectableAdmission(profiles, s, name, labels, now);
  }

  lemma SelectableListing(profiles: Profiles, s: seq<QuotaProfile>)
    requires Selectable(profiles) && Listing(s, profiles)
    ensures forall i :: 0 <= i < |s| ==> UnreservedSelector(s[i]) && s[i].key in profiles && profiles[s[i].key] == s[i]
  {
    Listed(s, profiles);
    forall i | 0 <= i < |s|
      ensures UnreservedSelector(s[i]) && s[i].key in profiles && profiles[s[i].key] == s[i]
    {
      assert s[i] in s;
    }
  }

  /** Without reserved selectors the fold sees the ranks of the incoming labels. */
  lemma SeenIsRanks(profiles: Profiles, s: seq<QuotaProfile>, i: nat, labels: Labels, now: string)
    requires i <= |s| && forall j :: 0 <= j < i ==> UnreservedSelector(s[j])
    ensures Seen(profiles, s, i, labels, now) == Ranks(s, labels)[..i]
  {
    forall j | 0 <= j < i ensures Seen(profiles, s, i, labels, now)[j] == Ranks(s, labels)[..i][j] {
      SeenUnreserved(profiles, s, i, j, labels, now);
    }
  }

  /** The holder is the leader of these ranks. */
  lemma RankedLead(profiles: Profiles, s: seq<QuotaProfile>, i: nat, labels: Labels, now: string)
    requires i <= |s| && forall j :: 0 <= j < i ==> UnreservedSelector(s[j])
    ensures var lead := LeadAfter(Ranks(s, labels), i, IncomingRank(profiles, labels));
            && Leading(Ranks(s, labels), i, IncomingRank(profiles, labels), lead)
            && HolderAfter(profiles, s, i, labels, now) == HolderKey(profiles, s, labels, lead)
  {
    SeenIsRanks(profiles, s, i, labels, now);
    var seen := Seen(profiles, s, i, labels, now);
    assert seen[..i] == Ranks(s, labels)[..i];
    LeadAfterPrefix(seen, Ranks(s, labels), i, IncomingRank(profiles, labels));
    LeadAfterLeads(Ranks(s, labels), i, IncomingRank(profiles, labels));
  }

  /** The leader's key has a dot exactly when it is that of a dotted profile of the list: the incoming one has none. */
  lemma StuckAtDotted(profiles: Profiles, s: seq<QuotaProfile>, j: nat, labels: Labels, now: string)
    requires KeysAgree(profiles) && j < |s|
    ensures var ranks := Seen(profiles, s, |s|, labels, now);
            StuckAt(profiles, s, j, labels, now)
            <==> && ranks[j] >= 0
                 && exists k: nat ::
                      k < j && !DotFree(s[k].key) && Leading(ranks, j, IncomingRank(profiles, labels), At(k))
  {
    var ranks, incoming := Seen(profiles, s, |s|, labels, now), IncomingRank(profiles, labels);
    SeenAt(profiles, s, |s|, j, labels, now);
    var before := Seen(profiles, s, j, labels, now);
    assert before[..j] == ranks[..j];
    LeadAfterPrefix(before, ranks, j, incoming);
    var lead := LeadAfter(ranks, j, incoming);
    LeadAfterLeads(ranks, j, incoming);
    if lead.Held? {
      IncomingIsDotFree(profiles, labels);
    }
    if k: nat :| k < j && !DotFree(s[k].key) && Leading(ranks, j, incoming, At(k)) {
      LeadingIsUnique(ranks, j, incoming, lead, At(k));
    }
  }

  lemma StuckIsDottedLeader(profiles: Profiles, s: seq<QuotaProfile>, name: string, labels: Labels, now: string)
    requires KeysAgree(profiles)
    ensures Stuck(profiles, s, name, labels, now)
            <==> DottedLeader(profiles, s, Seen(profiles, s, |s|, labels, now), name, labels)
  {
    var ranks := Seen(profiles, s, |s|, labels, now);
    forall j: nat | j < |s|
      ensures StuckAt(profiles, s, j, labels, now)
              <==> && ranks[j] >= 0
                   && exists k: nat ::
                        k < j && !DotFree(s[k].key) && Leading(ranks, j, IncomingRank(profiles, labels), At(k))
    {
      StuckAtDotted(profiles, s, j, labels, now);
    }
  }

  /** Position `j` holds the first live match of either kind. */
  ghost predicate FirstMatch(s: seq<QuotaProfile>, name: string, labels: Labels, j: int) {
    && 0 <= j < |s| && (LiveName(s[j], name) || LiveLabel(s[j], labels))
    && forall m :: 0 <= m < j ==> !LiveName(s[m], name) && !LiveLabel(s[m], labels)
  }

  /** The first live match of the list is a label match. */
  ghost predicate LabelMatchFirst(s: seq<QuotaProfile>, name: string, labels: Labels) {
    exists j :: FirstMatch(s, name, labels, j) && LiveLabel(s[j], labels)
  }

  lemma {:induction false} FirstMatchExists(s: seq<QuotaProfile>, name: string, labels: Labels, i: nat)
    requires i < |s| && (LiveName(s[i], name) || LiveLabel(s[i], labels))
    ensures exists j :: FirstMatch(s, name, labels, j)
  {
    if j :| 0 <= j < i && (LiveName(s[j], name) || LiveLabel(s[j], labels)) {
      FirstMatchExists(s, name, labels, j);
    } else {
      assert FirstMatch(s, name, labels, i);
    }
  }

  lemma VisitSkips(profiles: Profiles, p: QuotaProfile, name: string, labels: Labels, now: string)
    requires ExactlyOneKey(p) && !LiveName(p, name) && !LiveLabel(p, labels)
    ensures Visit(profiles, p, name, labels, false, now) == Continue(labels, false)
  {
    if !p.deleting && !p.NameSelector() && p.LabelSelector() {
      LabelTest(p, labels);
    }
  }

  lemma {:induction false} FoldSkips(profiles: Profiles, s: seq<QuotaProfile>, i: nat, j: nat, name: string,
                                     labels: Labels, now: string)
    requires OneKeyed(profiles) && Listing(s, profiles) && i <= j <= |s|
    requires forall m :: i <= m < j ==> !LiveName(s[m], name) && !LiveLabel(s[m], labels)
    ensures forall p :: p in s ==> AtMostOneKey(p)
    ensures Fold(profiles, s, i, name, labels, false, now) == Fold(profiles, s, j, name, labels, false, now)
    decreases j - i
  {
    Listed(s, profiles);
    if i < j {
      assert s[i] in s;
      VisitSkips(profiles, s[i], name, labels, now);
      FoldSkips(profiles, s, i + 1, j, name, labels, now);
    }
  }

  lemma UnresolvedFirstMatch(profiles: Profiles, s: seq<QuotaProfile>, name: string, labels: Labels, now: string,
                             j: nat)
    requires OneKeyed(profiles) && Listing(s, profiles) && !Resolves(profiles, labels) && FirstMatch(s, name, labels, j)
    ensures forall p :: p in s ==> AtMostOneKey(p)
    ensures Decision(profiles, s, name, labels, now)
            == if LiveLabel(s[j], labels) then Denied(ProfileNotFound) else Admitted(WithProfile(labels, s[j].key, now))
  {
    Listed(s, profiles);
    FoldSkips(profiles, s, 0, j, name, labels, now);
    var p := s[j];
    assert p in s;
    if LiveLabel(p, labels) {
      LabelTest(p, labels);
    }
  }

  /**
   A label that names no stored profile: admission fails exactly when the first live match of the list
   is a label match, and otherwise ends on the documented outcome.
   */
  lemma UnresolvedAdmission(profiles: Profiles, s: seq<QuotaProfile>, name: string, labels: Labels, now: string)
    requires OneKeyed(profiles) && Listing(s, profiles) && !Resolves(profiles, labels)
    ensures forall p :: p in s ==> AtMostOneKey(p)
    ensures var decision := Decision(profiles, s, name, labels, now);
            && (decision.Denied? <==> LabelMatchFirst(s, name, labels))
            && (decision.Denied? ==> decision.error == ProfileNotFound)
            && (decision.Admitted? ==>
                  exists w :: Documented(profiles, name, labels, w) && decision.labels == Outcome(labels, w, now))
  {
    Listed(s, profiles);
    if j :| FirstMatch(s, name, labels, j) {
      UnresolvedFirstMatch(profiles, s, name, labels, now, j);
      assert s[j] in s;
      assert forall i :: FirstMatch(s, name, labels, i) ==> i == j;
      if LiveName(s[j], name) {
        assert Documented(profiles, name, labels, Some(s[j].key));
        assert Decision(profiles, s, name, labels, now).labels == Outcome(labels, Some(s[j].key), now);
      }
    } else {
      NoMatchDocumented(profiles, s, name, labels);
      forall i | 0 <= i < |s| ensures !LiveName(s[i], name) && !LiveLabel(s[i], labels) {
        assert s[i] in s;
      }
      FoldSkips(profiles, s, 0, |s|, name, labels, now);
      assert Decision(profiles, s, name, labels, now).labels == Outcome(labels, None, now);
    }
  }

  lemma NoMatchDocumented(profiles: Profiles, s: seq<QuotaProfile>, name: string, labels: Labels)
    requires KeysAgree(profiles) && Listing(s, profiles) && !exists j :: FirstMatch(s, name, labels, j)
    ensures Documented(profiles, name, labels, None)
  {
    forall k | k in profiles ensures !LiveName(profiles[k], name) && !LiveLabel(profiles[k], labels) {
      var i := Position(profiles, s, labels, k);
      if LiveName(s[i], name) || LiveLabel(s[i], labels) {
        FirstMatchExists(s, name, labels, i);
      }
    }
  }

  /**
   A namespace that was given a profile with a dot in its key can be written again exactly when the first
   live match of the list is not a label match.
   */
  lemma DottedReadmission(profiles: Profiles, s: seq<QuotaProfile>, k: ProfileKey, name: string, labels: Labels,
                          now: string, later: string)
    requires Selectable(profiles) && Listing(s, profiles)
    requires k in profiles && !DotFree(k)
    ensures forall p :: p in s ==> AtMostOneKey(p)
    ensures Decision(profiles, s, name, WithProfile(labels, k, now), later).Denied?
            <==> LabelMatchFirst(s, name, labels)
  {
    var given := WithProfile(labels, k, now);
    WrittenLabelResolves(profiles, k, labels, now);
    UnresolvedAdmission(profiles, s, name, given, later);
    Listed(s, profiles);
    forall i | 0 <= i < |s| ensures LiveLabel(s[i], given) <==> LiveLabel(s[i], labels) {
      assert s[i] in s;
      MatchUnaffected(s[i], labels, k, now);
    }
    if j :| FirstMatch(s, name, labels, j) {
      assert FirstMatch(s, name, given, j);
    }
    if j :| FirstMatch(s, name, given, j) {
      assert FirstMatch(s, name, labels, j);
    }
  }

  // ---------------------------------------------------------------- order of the list

  ghost predicate DistinctTimestamps(profiles: Profiles) {
    forall k, l :: k in profiles && l in profiles && profiles[k].created == profiles[l].created ==> k == l
  }

  lemma SameElements<T>(a: seq<T>, b: seq<T>)
    requires multiset(a) == multiset(b)
    ensures |a| == |b|
    ensures forall p :: p in a ==> p in b
  {
    assert |a| == |multiset(a)| && |b| == |multiset(b)|;
    forall p | p in a ensures p in b {
      assert p in multiset(a);
    }
  }

  lemma SortedHeadsEqual(a: seq<QuotaProfile>, b: seq<QuotaProfile>)
    requires multiset(a) == multiset(b) && SortedByCreation(a) && SortedByCreation(b) && a != []
    requires forall p, q :: p in a && q in a && p.created == q.created ==> p == q
    ensures b != [] && a[0] == b[0]
  {
    SameElements(a, b);
    SameElements(b, a);
    assert a[0] in b && b[0] in a;
    var i :| 0 <= i < |a| && a[i] == b[0];
    var j :| 0 <= j < |b| && b[j] == a[0];
    assert a[0].created == b[0].created;
  }

  lemma EqualTails<T>(a: seq<T>, b: seq<T>)
    requires a != [] && b != [] && multiset(a) == multiset(b) && a[0] == b[0]
    ensures multiset(a[1..]) == multiset(b[1..])
    ensures forall x :: x in a[1..] ==> x in a
  {
    assert a == [a[0]] + a[1..] && b == [b[0]] + b[1..];
    assert multiset(a[1..]) == multiset(a) - multiset{a[0]};
    assert multiset(b[1..]) == multiset(b) - multiset{b[0]};
  }

  lemma HeadAndTail<T>(a: seq<T>, b: seq<T>)
    requires a != [] && b != [] && a[0] == b[0] && a[1..] == b[1..]
    ensures a == b
  {
    assert a == [a[0]] + a[1..] && b == [b[0]] + b[1..];
  }

  lemma SortedTail(a: seq<QuotaProfile>)
    requires a != [] && SortedByCreation(a)
    ensures SortedByCreation(a[1..])
  {
  }

  lemma {:induction false} SortedPermutationsEqual(a: seq<QuotaProfile>, b: seq<QuotaProfile>)
    requires multiset(a) == multiset(b) && SortedByCreation(a) && SortedByCreation(b)
    requires forall p, q :: p in a && q in a && p.created == q.created ==> p == q
    ensures a == b
  {
    SameElements(a, b);
    if a != [] {
      SortedHeadsEqual(a, b);
      EqualTails(a, b);
      SortedTail(a);
      SortedTail(b);
      SortedPermutationsEqual(a[1..], b[1..]);
      HeadAndTail(a, b);
    }
  }

  /** With distinct creation times the order in which the client lists the profiles is irrelevant. */
  lemma ListOrderIrrelevant(profiles: Profiles, s: seq<QuotaProfile>, t: seq<QuotaProfile>, name: string,
                            labels: Labels, now: string)
    requires KeysAgree(profiles) && (forall k :: k in profiles ==> AtMostOneKey(profiles[k]))
             && DistinctTimestamps(profiles)
    requires SortedListing(s, profiles) && SortedListing(t, profiles)
    ensures (forall p :: p in s ==> AtMostOneKey(p)) && (forall p :: p in t ==> AtMostOneKey(p))
    ensures Decision(profiles, s, name, labels, now) == Decision(profiles, t, name, labels, now)
  {
    Listed(s, profiles);
    Listed(t, profiles);
    SortedPermutationsEqual(s, t);
  }

  /** A name match is chosen whatever the order, even among equal creation times. */
  lemma NameMatchOrderIrrelevant(profiles: Profiles, s: seq<QuotaProfile>, t: seq<QuotaProfile>, k: ProfileKey,
                                 name: string, labels: Labels, now: string)
    requires Regular(profiles) && SelectorInvariant(profiles) && Resolves(profiles, labels)
    requires SortedListing(s, profiles) && SortedListing(t, profiles)
    requires k in profiles && LiveName(profiles[k], name)
    ensures (forall p :: p in s ==> AtMostOneKey(p)) && (forall p :: p in t ==> AtMostOneKey(p))
    ensures Decision(profiles, s, name, labels, now) == Admitted(WithProfile(labels, k, now))
    ensures Decision(profiles, t, name, labels, now) == Admitted(WithProfile(labels, k, now))
  {
    AdmissionOutcome(profiles, s, name, labels, now);
    AdmissionOutcome(profiles, t, name, labels, now);
    OneProfilePerName(profiles, k, Assigned(Decision(profiles, s, name, labels, now).labels).value, name);
    OneProfilePerName(profiles, k, Assigned(Decision(profiles, t, name, labels, now).labels).value, name);
  }

  /** The documented winner is one profile. */
  lemma DocumentedIsUnique(profiles: Profiles, name: string, labels: Labels, a: Option<ProfileKey>,
                           b: Option<ProfileKey>)
    requires SelectorInvariant(profiles) && DistinctTimestamps(profiles)
    requires Documented(profiles, name, labels, a) && Documented(profiles, name, labels, b)
    ensures a == b
  {
  }

  /** With distinct creation times the winner of the documentation is the outcome of admission. */
  lemma WinnerAdmitted(profiles: Profiles, s: seq<QuotaProfile>, name: string, labels: Labels, now: string,
                       winner: Option<ProfileKey>)
    requires Regular(profiles) && SelectorInvariant(profiles) && DistinctTimestamps(profiles)
    requires SortedListing(s, profiles) && Resolves(profiles, labels) && Documented(profiles, name, labels, winner)
    ensures forall p :: p in s ==> AtMostOneKey(p)
    ensures Decision(profiles, s, name, labels, now) == Admitted(Outcome(labels, winner, now))
            <==> !Shadowed(profiles, name, labels)
  {
    AdmissionOutcome(profiles, s, name, labels, now);
    var admitted := Decision(profiles, s, name, labels, now).labels;
    if winner.Some? {
      AssignedWithProfile(labels, winner.value, now);
    }
    if !Shadowed(profiles, name, labels) {
      DocumentedIsUnique(profiles, name, labels, winner, Assigned(admitted));
    }
  }

  // ---------------------------------------------------------------- admitting twice

  lemma RanksUnaffected(profiles: Profiles, s: seq<QuotaProfile>, labels: Labels, key: ProfileKey, now: string)
    requires Selectable(profiles) && Listing(s, profiles)
    ensures Ranks(s, WithProfile(labels, key, now)) == Ranks(s, labels)
  {
    SelectableListing(profiles, s);
    forall i | 0 <= i < |s| ensures Rank(s[i], WithProfile(labels, key, now)) == Rank(s[i], labels) {
      MatchUnaffected(s[i], labels, key, now);
    }
  }

  /** Once the incoming profile is the one the fold ended with, the fold ends with it again. */
  lemma LeadRepeats(ranks: seq<int>, incoming: Option<int>, again: int)
    requires var lead := LeadAfter(ranks, |ranks|, incoming);
             && (lead.At? ==> again == ranks[lead.k])
             && (lead.Held? ==> Some(again) == incoming)
             && !lead.Nobody?
    ensures LeadAfter(ranks, |ranks|, Some(again)) == LeadAfter(ranks, |ranks|, incoming)
  {
    var lead := LeadAfter(ranks, |ranks|, incoming);
    LeadAfterLeads(ranks, |ranks|, incoming);
    LeadAfterLeads(ranks, |ranks|, Some(again));
    LeadingIsUnique(ranks, |ranks|, Some(again), lead, LeadAfter(ranks, |ranks|, Some(again)));
  }

  /** Admission is idempotent: over the same sorted list it confirms what it decided. */
  lemma AdmissionIdempotent(profiles: Profiles, s: seq<QuotaProfile>, name: string, labels: Labels, now: string,
                            later: string)
    requires Regular(profiles) && Resolves(profiles, labels) && Listing(s, profiles)
    ensures forall p :: p in s ==> AtMostOneKey(p)
    ensures var first := Decision(profiles, s, name, labels, now);
            && first.Admitted?
            && var second := Decision(profiles, s, name, first.labels, later);
               second == Admitted(Outcome(first.labels, Assigned(first.labels), later))
  {
    DecisionSettles(profiles, s, name, labels, now);
    RegularNeverStuck(profiles, s, name, labels, now);
    var w := Settled(profiles, s, name, labels, now);
    var first := Outcome(labels, w, now);
    SettledStored(profiles, s, name, labels, now);
    if w.Some? {
      AssignedWithProfile(labels, w.value, now);
    }
    DecisionSettles(profiles, s, name, first, later);
    RegularNeverStuck(profiles, s, name, first, later);
    SettlesAgain(profiles, s, name, labels, now, later);
  }

  lemma SettlesAgain(profiles: Profiles, s: seq<QuotaProfile>, name: string, labels: Labels, now: string, later: string)
    requires Regular(profiles) && Resolves(profiles, labels) && Listing(s, profiles)
    ensures var w := Settled(profiles, s, name, labels, now);
            Settled(profiles, s, name, Outcome(labels, w, now), later) == w
  {
    if !exists m :: FirstName(s, name, m) {
      HolderRepeats(profiles, s, labels, now, later);
    } else {
      var m :| FirstName(s, name, m);
      assert forall n :: FirstName(s, name, n) ==> n == m;
    }
  }

  lemma HolderRepeats(profiles: Profiles, s: seq<QuotaProfile>, labels: Labels, now: string, later: string)
    requires Regular(profiles) && Resolves(profiles, labels) && Listing(s, profiles)
    ensures var w := HolderAfter(profiles, s, |s|, labels, now);
            HolderAfter(profiles, s, |s|, Outcome(labels, w, now), later) == w
  {
    SelectableListing(profiles, s);
    var ranks, incoming := Ranks(s, labels), IncomingRank(profiles, labels);
    var lead := LeadAfter(ranks, |s|, incoming);
    RankedLead(profiles, s, |s|, labels, now);
    HolderStored(profiles, s, |s|, labels, now);
    var w := HolderAfter(profiles, s, |s|, labels, now);
    RankedLead(profiles, s, |s|, Outcome(labels, w, now), later);
    if w.Some? {
      if lead.At? {
        assert ranks[lead.k] == Rank(s[lead.k], labels);
      }
      AssignedWithProfile(labels, w.value, now);
      RanksUnaffected(profiles, s, labels, w.value, now);
      LeadRepeats(ranks, incoming, profiles[w.value].spec.precedence);
    } else {
      StillNobody(s, labels, IncomingRank(profiles, WithoutProfile(labels)));
    }
  }

  lemma RankWithoutLabel(p: QuotaProfile, labels: Labels)
    requires Rank(p, labels) < 0
    ensures Rank(p, WithoutProfile(labels)) < 0
  {
  }

  lemma StillNobody(s: seq<QuotaProfile>, labels: Labels, incoming: Option<int>)
    requires forall i :: 0 <= i < |s| ==> Ranks(s, labels)[i] < 0
    ensures LeadAfter(Ranks(s, WithoutProfile(labels)), |s|, incoming) == Nobody
  {
    forall i | 0 <= i < |s| ensures Ranks(s, WithoutProfile(labels))[i] < 0 {
      assert Ranks(s, labels)[i] < 0;
      RankWithoutLabel(s[i], labels);
    }
    NobodyLeads(Ranks(s, WithoutProfile(labels)), incoming);
  }

  // ---------------------------------------------------------------- labels that differ in the reserved keys only

  lemma MatchAgrees(p: QuotaProfile, a: Labels, b: Labels)
    requires UnreservedSelector(p) && WithoutProfile(a) == WithoutProfile(b)
    ensures LabelMatch(p, a) <==> LabelMatch(p, b)
  {
    if p.LabelSelector() {
      forall k | k in p.spec.selector.matchLabels.value
        ensures k in a <==> k in b
        ensures k in a ==> a[k] == b[k]
      {
        assert k in a <==> k in WithoutProfile(a);
        assert k in b <==> k in WithoutProfile(b);
        if k in a {
          assert a[k] == WithoutProfile(a)[k];
          assert b[k] == WithoutProfile(b)[k];
        }
      }
    }
  }

  lemma DocumentedAgrees(profiles: Profiles, name: string, a: Labels, b: Labels, winner: Option<ProfileKey>)
    requires Selectable(profiles) && WithoutProfile(a) == WithoutProfile(b)
    ensures Documented(profiles, name, a, winner) <==> Documented(profiles, name, b, winner)
  {
    forall k | k in profiles ensures LiveLabel(profiles[k], a) <==> LiveLabel(profiles[k], b) {
      MatchAgrees(profiles[k], a, b);
    }
  }

  lemma OutcomeKeepsOthers(labels: Labels, winner: Option<ProfileKey>, now: string)
    ensures WithoutProfile(Outcome(labels, winner, now)) == WithoutProfile(labels)
  {
  }
}
