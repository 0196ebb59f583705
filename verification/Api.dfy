/**
 The API objects of the operator (api/v1alpha1/quotaprofile_types.go) and the profile ID
 that is written into namespace labels and parsed back out of them.
 */
module Api {
  import opened Strings

  type uint16 = x: int | 0 <= x < 0x1_0000

  const PROFILE_LABEL: string := "quota.dev.operator/profile"
  const TIMESTAMP_LABEL: string := "quota.dev.operator/profile-last-update-timestamp"

  type Labels = map<string, string>

  datatype ProfileKey = ProfileKey(namespace: string, name: string)

  /** An absent pointer or nil map is `None`; `Some(map[])` is a map that is present and empty. */
  datatype NamespaceSelector = NamespaceSelector(matchLabels: Option<Labels>, matchName: Option<string>)

  datatype ResourceQuotaSpec = ResourceQuotaSpec(hard: map<string, string>)

  datatype LimitRangeSpec = LimitRangeSpec(limits: seq<map<string, string>>)

  datatype QuotaProfileSpec = QuotaProfileSpec(
    selector: NamespaceSelector,
    precedence: uint16,
    resourceQuotaSpecs: seq<ResourceQuotaSpec>,
    limitRangeSpecs: seq<LimitRangeSpec>)

  /** `deleting` says that the deletion timestamp is set, `finalizer` that this operator's finalizer is present. */
  datatype QuotaProfile = QuotaProfile(
    key: ProfileKey,
    created: nat,
    deleting: bool,
    finalizer: bool,
    spec: QuotaProfileSpec)
  {
    predicate LabelSelector() { spec.selector.matchLabels.Some? }

    predicate NameSelector() { spec.selector.matchName.Some? }
  }

  type Profiles = map<ProfileKey, QuotaProfile>

  ghost predicate KeysAgree(profiles: Profiles) {
    forall k :: k in profiles ==> profiles[k].key == k
  }

  // ---------------------------------------------------------------- label selectors

  /** At most one label key: what `validate` leaves of a label selector, and what makes `keys[0]` one value. */
  predicate AtMostOneKey(p: QuotaProfile) {
    p.LabelSelector() ==> |p.spec.selector.matchLabels.value| <= 1
  }

  predicate ExactlyOneKey(p: QuotaProfile) {
    p.LabelSelector() ==> |p.spec.selector.matchLabels.value| == 1
  }

  /** `keys[0]` of the keys of a map with one entry. */
  function FirstKey(m: Labels): (k: string)
    requires |m| == 1
    ensures m.Keys == {k}
  {
    SingleKey(m);
    var k :| k in m;
    k
  }

  lemma SingleKey(m: Labels)
    requires |m| == 1
    ensures exists k :: k in m && m.Keys == {k}
  {
    assert |m.Keys| == 1;
    var k :| k in m.Keys;
    assert |m.Keys - {k}| == 0;
    assert m.Keys == {k};
  }

  // ---------------------------------------------------------------- profile IDs

  function ProfileID(key: ProfileKey): string {
    key.namespace + "." + key.name
  }

  function SplitProfileID(id: string): ProfileKey {
    var parts := Split(id, '.');
    if |parts| != 2 then ProfileKey("", "") else ProfileKey(parts[0], parts[1])
  }

  predicate DotFree(key: ProfileKey) {
    '.' !in key.namespace && '.' !in key.name
  }

  /** Parsing gives back the profile that was written exactly when neither half contains the separator. */
  lemma ProfileIDRoundTrip(key: ProfileKey)
    ensures SplitProfileID(ProfileID(key)) == key <==> DotFree(key)
  {
    var left, right := Split(key.namespace, '.'), Split(key.name, '.');
    assert ProfileID(key) == key.namespace + ['.'] + key.name;
    SplitConcat(key.namespace, key.name, '.');
    SplitSingle(key.namespace, '.');
    SplitSingle(key.name, '.');
    if DotFree(key) {
      assert left + right == [key.namespace, key.name];
    } else {
      assert |left + right| != 2;
    }
  }

  /** An ID of two parts is the ID of the profile it parses to. */
  lemma SplitProfileIDInverse(id: string)
    requires |Split(id, '.')| == 2
    ensures ProfileID(SplitProfileID(id)) == id
  {
    JoinSplit(id, '.');
    var parts := Split(id, '.');
    assert Join(parts[1..], '.') == parts[1];
  }

  /** A label names a profile exactly when it is the ID of that profile and the profile has no dot. */
  lemma SplitProfileIDExact(id: string, key: ProfileKey)
    requires key != ProfileKey("", "")
    ensures SplitProfileID(id) == key <==> id == ProfileID(key) && DotFree(key)
  {
    ProfileIDRoundTrip(key);
    if |Split(id, '.')| == 2 {
      SplitProfileIDInverse(id);
    }
  }

  /** Whatever a label names, neither half contains a dot. */
  lemma SplitProfileIDDotFree(id: string)
    ensures DotFree(SplitProfileID(id))
  {
    if |Split(id, '.')| == 2 {
      SplitParts(id, '.', 0);
      SplitParts(id, '.', 1);
    }
  }

  /** Two dot-free profiles share an ID only if they are the same profile. */
  lemma ProfileIDInjective(a: ProfileKey, b: ProfileKey)
    requires DotFree(a) && DotFree(b) && ProfileID(a) == ProfileID(b)
    ensures a == b
  {
    ProfileIDRoundTrip(a);
    ProfileIDRoundTrip(b);
  }

  // ---------------------------------------------------------------- namespace labels

  /** The labels after `setQuotaProfileLabels`, with `now` for the formatted wall clock. */
  function WithProfile(labels: Labels, key: ProfileKey, now: string): Labels {
    labels[PROFILE_LABEL := ProfileID(key)][TIMESTAMP_LABEL := now]
  }

  /** The labels after both reserved keys are deleted. */
  function WithoutProfile(labels: Labels): Labels {
    labels - {PROFILE_LABEL, TIMESTAMP_LABEL}
  }

  predicate Reserved(key: string) { key == PROFILE_LABEL || key == TIMESTAMP_LABEL }

  lemma ReservedKeysDiffer()
    ensures PROFILE_LABEL != TIMESTAMP_LABEL
  {
    assert |PROFILE_LABEL| < |TIMESTAMP_LABEL|;
  }

  /** The profile a namespace's label names, as every reader of the label parses it. */
  function Assigned(labels: Labels): Option<ProfileKey> {
    if PROFILE_LABEL in labels then Some(SplitProfileID(labels[PROFILE_LABEL])) else None
  }

  lemma AssignedWithProfile(labels: Labels, key: ProfileKey, now: string)
    requires DotFree(key)
    ensures Assigned(WithProfile(labels, key, now)) == Some(key)
  {
    ReservedKeysDiffer();
    ProfileIDRoundTrip(key);
  }

  /** A namespace object in memory: what the API server decodes and the operator mutates. */
  class Namespace {
    const name: string
    var labels: Labels

    constructor (name: string, labels: Labels)
      ensures this.name == name && this.labels == labels
    {
      this.name := name;
      this.labels := labels;
    }

    method SetQuotaProfileLabels(key: ProfileKey, now: string)
      modifies this
      ensures labels == WithProfile(old(labels), key, now)
    {
      labels := labels[PROFILE_LABEL := key.namespace + "." + key.name];
      labels := labels[TIMESTAMP_LABEL := now];
    }

    method RemoveLabel()
      modifies this
      ensures labels == WithoutProfile(old(labels))
    {
      labels := labels - {PROFILE_LABEL};
      labels := labels - {TIMESTAMP_LABEL};
    }
  }

  // ---------------------------------------------------------------- listing named objects

  /** A `List` of named objects: every entry once, in some order. */
  method ListItems<V(==)>(m: map<string, V>) returns (items: seq<(string, V)>)
    ensures multiset(items) == multiset(m.Items)
  {
    var rest: set<(string, V)> := m.Items;
    items := [];
    while rest != {}
      invariant multiset(items) + multiset(rest) == multiset(m.Items)
      decreases rest
    {
      var item :| item in rest;
      items, rest := items + [item], rest - {item};
    }
  }

  /** A listing of a map's items names every key once, with its value. */
  lemma ItemsListed<V>(items: seq<(string, V)>, m: map<string, V>)
    requires multiset(items) == multiset(m.Items)
    ensures forall i :: 0 <= i < |items| ==> items[i].0 in m && m[items[i].0] == items[i].1
    ensures forall i, j :: 0 <= i < |items| && 0 <= j < |items| && items[i].0 == items[j].0 ==> i == j
    ensures forall n :: n in m ==> exists i :: 0 <= i < |items| && items[i].0 == n
  {
    forall i | 0 <= i < |items| ensures items[i].0 in m && m[items[i].0] == items[i].1 {
      assert items[i] in multiset(items);
    }
    forall i, j | 0 <= i < |items| && 0 <= j < |items| && items[i].0 == items[j].0 ensures i == j {
      ListedOnce(items, m.Items, i, j);
    }
    forall n | n in m ensures exists i :: 0 <= i < |items| && items[i].0 == n {
      assert (n, m[n]) in multiset(items);
      assert (n, m[n]) in items;
    }
  }
}
