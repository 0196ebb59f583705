/**
 The Namespace controller (internal/controller/namespace_controller.go): it drives the managed
 ResourceQuotas and LimitRanges of one namespace to what the assigned profile says. The names of the
 objects it creates encode an index that it parses back out of them.
 */
module NamespaceController {
  import opened Strings
  import opened Api

  // ---------------------------------------------------------------- generated names

  const QUOTA_SUFFIX: string := "rq"
  const LIMIT_SUFFIX: string := "lr"

  /** `getResourceQuotaID` and `getLimitRangeID`, which differ in the suffix only. */
  function GeneratedName(q: ProfileKey, i: nat, suffix: string): string {
    q.namespace + "-" + q.name + "-" + Itoa(i) + "-" + suffix
  }

  /** `getResourceQuotaIndex` and `getLimitRangeIndex`: the last but one of the parts between hyphens. */
  function IndexOf(name: string): Option<int>
    requires |Split(name, '-')| >= 2
  {
    var parts := Split(name, '-');
    Atoi(parts[|parts| - 2])
  }

  /** The last but one part exists exactly when the name has a hyphen. */
  lemma IndexReadable(name: string)
    ensures |Split(name, '-')| >= 2 <==> '-' in name
  {
    SplitSingle(name, '-');
  }

  lemma ItoaHasNoHyphen(i: nat)
    ensures '-' !in Itoa(i)
  {
    forall k | 0 <= k < |Itoa(i)| ensures Itoa(i)[k] != '-' {
      assert IsDigit(Itoa(i)[k]);
    }
  }

  lemma GeneratedNameSplits(q: ProfileKey, i: nat, suffix: string)
    requires '-' !in suffix
    ensures Split(GeneratedName(q, i, suffix), '-') == Split(q.namespace + "-" + q.name, '-') + [Itoa(i), suffix]
  {
    var prefix := q.namespace + "-" + q.name;
    assert GeneratedName(q, i, suffix) == prefix + ['-'] + (Itoa(i) + ['-'] + suffix);
    SplitConcat(prefix, Itoa(i) + ['-'] + suffix, '-');
    SplitConcat(Itoa(i), suffix, '-');
    ItoaHasNoHyphen(i);
    SplitSingle(Itoa(i), '-');
    SplitSingle(suffix, '-');
  }

  /** Round trip, hyphens in the profile's namespace or name included. */
  lemma IndexRoundTrip(q: ProfileKey, i: nat, suffix: string)
    requires i <= MAX_INT && '-' !in suffix
    ensures |Split(GeneratedName(q, i, suffix), '-')| >= 2
    ensures IndexOf(GeneratedName(q, i, suffix)) == Some(i)
  {
    GeneratedNameSplits(q, i, suffix);
    AtoiItoa(i);
  }

  /** The names generated for one profile are distinct. */
  lemma GeneratedNameInjective(q: ProfileKey, i: nat, j: nat, suffix: string)
    requires i <= MAX_INT && j <= MAX_INT && '-' !in suffix
    requires GeneratedName(q, i, suffix) == GeneratedName(q, j, suffix)
    ensures i == j
  {
    IndexRoundTrip(q, i, suffix);
    IndexRoundTrip(q, j, suffix);
  }

  /** The first objects of a profile, as text. */
  lemma FirstNames()
    ensures GeneratedName(ProfileKey("o", "b"), 0, QUOTA_SUFFIX) == "o-b-0-rq"
    ensures GeneratedName(ProfileKey("o", "b"), 0, LIMIT_SUFFIX) == "o-b-0-lr"
  {
  }

  /** Two digits, and a profile with hyphens in both halves. */
  lemma TenthName()
    ensures GeneratedName(ProfileKey("my-ops", "b-c"), 10, LIMIT_SUFFIX) == "my-ops-b-c-10-lr"
    ensures |Split("my-ops-b-c-10-lr", '-')| >= 2 && IndexOf("my-ops-b-c-10-lr") == Some(10)
  {
    assert Itoa(10) == Itoa(1) + ['0'] == "10";
    IndexRoundTrip(ProfileKey("my-ops", "b-c"), 10, LIMIT_SUFFIX);
  }

  /** A parsed index is never negative, so the upper bound alone makes the access safe. */
  lemma IndexNonNegative(name: string)
    requires |Split(name, '-')| >= 2
    ensures IndexOf(name).Some? ==> 0 <= IndexOf(name).value <= MAX_INT
  {
    var parts := Split(name, '-');
    SplitParts(name, '-', |parts| - 2);
    AtoiNonNegative(parts[|parts| - 2]);
  }

  // ---------------------------------------------------------------- stored objects

  /**
   A ResourceQuota or LimitRange of the namespace; `deleting` says that its deletion timestamp is set, `held`
   that something such as a finalizer keeps it from being removed.
   */
  datatype Object<S> = Object(labels: Labels, spec: S, deleting: bool, held: bool)

  type Store<S> = map<string, Object<S>>

  predicate Managed<S>(o: Object<S>) { PROFILE_LABEL in o.labels }

  predicate Owned<S>(o: Object<S>, id: string) { Managed(o) && o.labels[PROFILE_LABEL] == id }

  predicate Holds<S>(store: Store<S>, name: string, id: string) { name in store && Owned(store[name], id) }

  /** A delete removes an object at once unless something holds it; it is terminating then. */
  function Delete<S>(store: Store<S>, name: string): Store<S>
    requires name in store
  {
    if store[name].held then store[name := store[name].(deleting := true)] else store - {name}
  }

  // ---------------------------------------------------------------- repair of what exists

  /** What a repair pass does with one listed object; a panic ends the pass. */
  datatype Fate = Keep | Remove | Overwrite(index: int) | Panic

  /** `bound` is the number the parsed index is compared with, `count` the length of the list it is then used on. */
  function FateOf<S>(name: string, o: Object<S>, id: string, bound: nat, count: nat): (fate: Fate)
    ensures fate.Overwrite? ==> 0 <= fate.index < count
  {
    if !Managed(o) then Keep
    else if o.labels[PROFILE_LABEL] != id then Remove
    else if |Split(name, '-')| < 2 then Panic
    else
      match IndexOf(name)
      case None => Keep
      case Some(i) => if i >= bound then Remove else if 0 <= i < count then Overwrite(i) else Panic
  }

  /** No index access of the pass is out of range. */
  ghost predicate Accessible<S>(store: Store<S>, id: string, bound: nat, count: nat) {
    forall n :: n in store ==> !FateOf(n, store[n], id, bound, count).Panic?
  }

  ghost predicate Survives<S>(n: string, o: Object<S>, id: string, bound: nat, count: nat) {
    FateOf(n, o, id, bound, count).Remove? ==> o.held
  }

  ghost function Repaired<S>(n: string, o: Object<S>, id: string, bound: nat, specs: seq<S>): Object<S> {
    match FateOf(n, o, id, bound, |specs|)
    case Overwrite(i) => o.(spec := specs[i])
    case Remove => o.(deleting := true)
    case _ => o
  }

  /** The store after the listed objects in `done` were handled, independent of the order they came in. */
  ghost function Repair<S>(store: Store<S>, done: set<string>, id: string, bound: nat, specs: seq<S>): Store<S> {
    map n | n in store && (n in done ==> Survives(n, store[n], id, bound, |specs|))
          :: if n in done then Repaired(n, store[n], id, bound, specs) else store[n]
  }

  /** The pass does not panic on any of these objects. */
  ghost predicate Handles<S>(store: Store<S>, done: set<string>, id: string, bound: nat, count: nat) {
    forall n :: n in done ==> n in store && !FateOf(n, store[n], id, bound, count).Panic?
  }

  /** A pass that panicked has handled some of the objects it does not panic on, and nothing else. */
  ghost predicate PartlyRepaired<S>(before: Store<S>, after: Store<S>, id: string, bound: nat, specs: seq<S>) {
    exists done :: Handles(before, done, id, bound, |specs|) && after == Repair(before, done, id, bound, specs)
  }

  // ---------------------------------------------------------------- creation of what is missing

  ghost predicate Generated(n: string, q: ProfileKey, count: nat, suffix: string) {
    exists i :: 0 <= i < count && n == GeneratedName(q, i, suffix)
  }

  ghost function GeneratedNames(q: ProfileKey, count: nat, suffix: string): (names: set<string>)
    ensures forall n :: n in names <==> Generated(n, q, count, suffix)
  {
    set i | 0 <= i < count :: GeneratedName(q, i, suffix)
  }

  ghost function IndexIn(n: string, q: ProfileKey, count: nat, suffix: string): (i: nat)
    requires Generated(n, q, count, suffix)
    ensures i < count && n == GeneratedName(q, i, suffix)
  {
    var i: nat :| i < count && n == GeneratedName(q, i, suffix);
    i
  }

  function NewObject<S>(q: ProfileKey, spec: S): Object<S> {
    Object(map[PROFILE_LABEL := ProfileID(q)], spec, false, false)
  }

  /** The store after get-or-create of the first `count` generated objects: a found one has its spec overwritten. */
  ghost function Ensured<S>(store: Store<S>, q: ProfileKey, count: nat, suffix: string, specs: seq<S>): Store<S>
    requires count <= |specs|
  {
    map n | n in store.Keys + GeneratedNames(q, count, suffix)
          :: if !Generated(n, q, count, suffix) then store[n]
             else
               var spec := specs[IndexIn(n, q, count, suffix)];
               if n in store then store[n].(spec := spec) else NewObject(q, spec)
  }

  // ---------------------------------------------------------------- the two passes

  /** A whole quota pass: repair everything listed, then get-or-create. `None` is a panic. */
  ghost function QuotaPass<S>(store: Store<S>, q: ProfileKey, suffix: string, specs: seq<S>): Option<Store<S>> {
    if Accessible(store, ProfileID(q), |specs|, |specs|)
    then Some(Ensured(Repair(store, store.Keys, ProfileID(q), |specs|, specs), q, |specs|, suffix, specs))
    else None
  }

  /**
   A whole limit range pass: create everything if the namespace has no limit range at all, otherwise only
   repair. The parsed index is compared with the number of resource quota specs, `quotaCount`. `None` is a panic.
   */
  ghost function LimitPass<S>(store: Store<S>, q: ProfileKey, suffix: string, quotaCount: nat, specs: seq<S>)
    : Option<Store<S>>
  {
    if store == map[] then Some(Ensured(store, q, |specs|, suffix, specs))
    else if Accessible(store, ProfileID(q), quotaCount, |specs|)
    then Some(Repair(store, store.Keys, ProfileID(q), quotaCount, specs))
    else None
  }

  /** Where a pass leaves the store. */
  ghost predicate Ran<S>(before: Store<S>, after: Store<S>, pass: Option<Store<S>>, id: string, bound: nat,
                         specs: seq<S>)
  {
    match pass
    case Some(final) => after == final
    case None => PartlyRepaired(before, after, id, bound, specs)
  }

  // ---------------------------------------------------------------- index access

  /**
   When the index is compared with no more than the length of the list it is used on, a hyphen in the names
   suffices.
   */
  lemma IndexAccessSafe<S>(store: Store<S>, id: string, bound: nat, count: nat)
    requires bound <= count
    ensures Accessible(store, id, bound, count) <==> forall n :: n in store && Owned(store[n], id) ==> '-' in n
  {
    forall n | n in store
      ensures FateOf(n, store[n], id, bound, count).Panic? <==> Owned(store[n], id) && '-' !in n
    {
      IndexReadable(n);
      if Owned(store[n], id) && '-' in n {
        IndexNonNegative(n);
      }
    }
  }

  /** With its owner's label, a generated object is overwritten with its own spec, if there is one. */
  lemma GeneratedFate<S>(o: Object<S>, q: ProfileKey, i: nat, suffix: string, bound: nat, count: nat)
    requires i <= MAX_INT && '-' !in suffix && Owned(o, ProfileID(q))
    ensures FateOf(GeneratedName(q, i, suffix), o, ProfileID(q), bound, count)
            == if i >= bound then Remove else if i < count then Overwrite(i) else Panic
  {
    IndexRoundTrip(q, i, suffix);
  }

  /** The object was created by this controller: it is named after the profile its label names. */
  ghost predicate NamedAfter<S>(n: string, o: Object<S>, suffix: string, key: ProfileKey, i: nat) {
    DotFree(key) && i <= MAX_INT && n == GeneratedName(key, i, suffix) && Owned(o, ProfileID(key))
  }

  ghost predicate WellNamed<S>(store: Store<S>, suffix: string) {
    forall n :: n in store && Managed(store[n]) ==> exists key, i :: NamedAfter(n, store[n], suffix, key, i)
  }

  /** In a well-named store what carries the label of `q` is named after `q`. */
  lemma NamedAfterOwner<S>(store: Store<S>, q: ProfileKey, suffix: string, n: string) returns (i: nat)
    requires WellNamed(store, suffix) && DotFree(q) && n in store && Owned(store[n], ProfileID(q))
    ensures NamedAfter(n, store[n], suffix, q, i)
  {
    var key, j :| NamedAfter(n, store[n], suffix, key, j);
    ProfileIDInjective(key, q);
    i := j;
  }

  /**
   Among objects this controller created, a pass panics exactly when one of them has an index that passes the
   bound but is past the end of the list: for limit ranges, an index that a resource quota spec has and no
   limit range spec.
   */
  lemma WellNamedAccess<S>(store: Store<S>, q: ProfileKey, suffix: string, bound: nat, count: nat)
    requires bound <= MAX_INT && '-' !in suffix && DotFree(q) && WellNamed(store, suffix)
    ensures Accessible(store, ProfileID(q), bound, count)
            <==> forall i :: count <= i < bound ==> !Holds(store, GeneratedName(q, i, suffix), ProfileID(q))
  {
    forall i: nat | count <= i < bound && Holds(store, GeneratedName(q, i, suffix), ProfileID(q))
      ensures !Accessible(store, ProfileID(q), bound, count)
    {
      GeneratedFate(store[GeneratedName(q, i, suffix)], q, i, suffix, bound, count);
    }
    forall n | n in store && FateOf(n, store[n], ProfileID(q), bound, count).Panic?
      ensures exists i :: count <= i < bound && n == GeneratedName(q, i, suffix)
    {
      var i := NamedAfterOwner(store, q, suffix, n);
      GeneratedFate(store[n], q, i, suffix, bound, count);
    }
  }

  /**
   The set of limit ranges that this controller created for a profile makes its next pass panic exactly when
   the profile has fewer limit range specs now, both than it had and than it has resource quota specs.
   */
  lemma ShortenedSpecsPanic<S>(q: ProfileKey, suffix: string, quotaCount: nat, was: seq<S>, now: seq<S>)
    requires |was| <= MAX_INT && quotaCount <= MAX_INT && '-' !in suffix
    ensures var created := LimitPass(map[], q, suffix, quotaCount, was);
            && created.Some?
            && (LimitPass(created.value, q, suffix, quotaCount, now) == None <==> |now| < |was| && |now| < quotaCount)
  {
    var created := Ensured(map[], q, |was|, suffix, was);
    forall n | n in created
      ensures var i := IndexIn(n, q, |was|, suffix);
              FateOf(n, created[n], ProfileID(q), quotaCount, |now|).Panic? <==> |now| <= i < quotaCount
    {
      GeneratedFate(created[n], q, IndexIn(n, q, |was|, suffix), suffix, quotaCount, |now|);
    }
    if |now| < |was| {
      IndexInUnique(q, |now|, |was|, suffix);
      assert GeneratedName(q, |now|, suffix) in created;
    }
  }

  /** A namespace on which a pass panicked makes every later pass for the same specs panic. */
  lemma PanicStays<S>(before: Store<S>, after: Store<S>, id: string, bound: nat, specs: seq<S>)
    requires PartlyRepaired(before, after, id, bound, specs)
    ensures Accessible(after, id, bound, |specs|) <==> Accessible(before, id, bound, |specs|)
  {
    var done :| Handles(before, done, id, bound, |specs|) && after == Repair(before, done, id, bound, specs);
    forall n | n in after
      ensures FateOf(n, after[n], id, bound, |specs|) == FateOf(n, before[n], id, bound, |specs|)
    {
    }
    forall n | n in before && FateOf(n, before[n], id, bound, |specs|).Panic? ensures n in after {
    }
  }

  // ---------------------------------------------------------------- what becomes of each object

  /** The text between the last two hyphens. */
  function IndexText(name: string): string
    requires '-' in name
  {
    IndexReadable(name);
    var parts := Split(name, '-');
    parts[|parts| - 2]
  }

  /** That text is a number of the machine's range, read off its characters. */
  predicate Indexed(name: string)
    requires '-' in name
  {
    Numeral(IndexText(name)) && Magnitude(IndexText(name)) <= MAX_INT
  }

  /** It lies between two hyphens, so there is no minus sign in it. */
  lemma IndexTextHasNoHyphen(name: string)
    requires '-' in name
    ensures '-' !in IndexText(name)
  {
    IndexReadable(name);
    SplitParts(name, '-', |Split(name, '-')| - 2);
  }

  lemma IndexOfExact(name: string)
    requires '-' in name
    ensures |Split(name, '-')| >= 2
    ensures IndexOf(name) == if Indexed(name) then Some(Magnitude(IndexText(name))) else None
  {
    IndexReadable(name);
    IndexTextHasNoHyphen(name);
    AtoiExact(IndexText(name));
    var text := IndexText(name);
    if text != "" {
      assert text[0] in text;
    }
  }

  /** Whatever comes before, and whatever the last part is. */
  lemma IndexTextAt(before: string, text: string, after: string)
    requires '-' !in text && '-' !in after
    ensures var name := before + "-" + text + "-" + after; '-' in name && IndexText(name) == text
  {
    var name := before + "-" + text + "-" + after;
    assert name == before + ['-'] + (text + ['-'] + after);
    assert name[|before|] == '-';
    SplitConcat(before, text + ['-'] + after, '-');
    SplitConcat(text, after, '-');
    SplitSingle(text, '-');
    SplitSingle(after, '-');
  }

  /** What a repair leaves of an object, said without parsing: `after` is its entry afterwards, if there is one. */
  ghost predicate RightlyRepaired<S>(n: string, o: Object<S>, id: string, bound: nat, specs: seq<S>,
                                     after: Option<Object<S>>)
    requires Owned(o, id) ==> '-' in n
  {
    if !Managed(o) then after == Some(o)
    else if !Owned(o, id) || (Indexed(n) && Magnitude(IndexText(n)) >= bound)
    then after == if o.held then Some(Object(o.labels, o.spec, true, true)) else None
    else if !Indexed(n) then after == Some(o)
    else
      && Magnitude(IndexText(n)) < |specs|
      && after == Some(Object(o.labels, specs[Magnitude(IndexText(n))], o.deleting, o.held))
  }

  function Entry<S>(store: Store<S>, n: string): Option<Object<S>> {
    if n in store then Some(store[n]) else None
  }

  lemma RepairDecided<S>(store: Store<S>, id: string, bound: nat, specs: seq<S>, n: string)
    requires n in store && !FateOf(n, store[n], id, bound, |specs|).Panic?
    ensures Owned(store[n], id) ==> '-' in n
    ensures RightlyRepaired(n, store[n], id, bound, specs, Entry(Repair(store, store.Keys, id, bound, specs), n))
  {
    RepairAt(store, id, bound, specs, n);
    if Owned(store[n], id) {
      IndexReadable(n);
      IndexOfExact(n);
    }
  }

  /**
   What becomes of every object in a quota pass: an unmanaged one, or one of this profile whose index is no
   number, is left alone; one of another profile, or with an index past the specs, goes or is terminating if
   something holds it; any other gets the spec of its index. Names that the pass generates come after that.
   */
  lemma QuotaPassDecided<S>(store: Store<S>, q: ProfileKey, suffix: string, specs: seq<S>, n: string)
    requires QuotaPass(store, q, suffix, specs).Some? && n in store && !Generated(n, q, |specs|, suffix)
    ensures Owned(store[n], ProfileID(q)) ==> '-' in n
    ensures RightlyRepaired(n, store[n], ProfileID(q), |specs|, specs,
                            Entry(QuotaPass(store, q, suffix, specs).value, n))
  {
    RepairDecided(store, ProfileID(q), |specs|, specs, n);
  }

  /**
   Under a generated name a quota pass leaves an object with the spec of its index: what was there, whoever it
   belongs to, unless the repair removed it, and else a new one with the label of the profile. Under any other name
   it creates nothing.
   */
  lemma QuotaPassGenerated<S>(store: Store<S>, q: ProfileKey, suffix: string, specs: seq<S>, i: nat, other: string)
    requires i < |specs| <= MAX_INT && '-' !in suffix && QuotaPass(store, q, suffix, specs).Some?
    ensures var n, final := GeneratedName(q, i, suffix), QuotaPass(store, q, suffix, specs).value;
            Entry(final, n)
            == Some(if n in store && (!Managed(store[n]) || Owned(store[n], ProfileID(q)))
                    then Object(store[n].labels, specs[i], store[n].deleting, store[n].held)
                    else if n in store && store[n].held then Object(store[n].labels, specs[i], true, true)
                    else Object(map[PROFILE_LABEL := ProfileID(q)], specs[i], false, false))
    ensures other !in store && !Generated(other, q, |specs|, suffix) ==>
              other !in QuotaPass(store, q, suffix, specs).value
  {
    var n := GeneratedName(q, i, suffix);
    IndexInUnique(q, i, |specs|, suffix);
    PassAt(store, q, suffix, specs, n);
    if n in store && Owned(store[n], ProfileID(q)) {
      GeneratedFate(store[n], q, i, suffix, |specs|, |specs|);
    }
    PassAt(store, q, suffix, specs, other);
  }

  /** A limit range pass over an empty store creates the same objects, and over any other creates nothing. */
  lemma LimitPassCreates<S>(store: Store<S>, q: ProfileKey, suffix: string, quotaCount: nat, specs: seq<S>, n: string)
    requires |specs| <= MAX_INT && '-' !in suffix
    ensures LimitPass(map[], q, suffix, quotaCount, specs) == QuotaPass(map[], q, suffix, specs)
    ensures var pass := LimitPass(store, q, suffix, quotaCount, specs);
            store != map[] && pass.Some? && n in pass.value ==> n in store
  {
    var nothing: Store<S> := map[];
    assert Repair(nothing, nothing.Keys, ProfileID(q), |specs|, specs) == map[];
    if LimitPass(store, q, suffix, quotaCount, specs).Some? {
      RepairAt(store, ProfileID(q), quotaCount, specs, n);
    }
  }

  /** The first quota of a profile in an empty namespace, and its first limit range. */
  lemma CreatedExample<S>(spec: S)
    ensures var created := Object(map["quota.dev.operator/profile" := "o.b"], spec, false, false);
            && QuotaPass(map[], ProfileKey("o", "b"), QUOTA_SUFFIX, [spec]) == Some(map["o-b-0-rq" := created])
            && LimitPass(map[], ProfileKey("o", "b"), LIMIT_SUFFIX, 1, [spec]) == Some(map["o-b-0-lr" := created])
  {
    FirstNames();
    assert ProfileID(ProfileKey("o", "b")) == "o.b";
    CreatedAlone(ProfileKey("o", "b"), QUOTA_SUFFIX, 1, spec);
    CreatedAlone(ProfileKey("o", "b"), LIMIT_SUFFIX, 1, spec);
  }

  lemma CreatedAlone<S>(q: ProfileKey, suffix: string, quotaCount: nat, spec: S)
    requires '-' !in suffix
    ensures var o := Object(map[PROFILE_LABEL := ProfileID(q)], spec, false, false);
            var created := Some(map[GeneratedName(q, 0, suffix) := o]);
            && QuotaPass(map[], q, suffix, [spec]) == created
            && LimitPass(map[], q, suffix, quotaCount, [spec]) == created
  {
    var n := GeneratedName(q, 0, suffix);
    LimitPassCreates(map[], q, suffix, quotaCount, [spec], n);
    var final := QuotaPass(map[], q, suffix, [spec]).value;
    forall other ensures other in final <==> other == n {
      QuotaPassGenerated(map[], q, suffix, [spec], 0, other);
      if Generated(other, q, 1, suffix) {
        assert IndexIn(other, q, 1, suffix) == 0;
      }
    }
    QuotaPassGenerated(map[], q, suffix, [spec], 0, n);
    assert final == map[n := Object(map[PROFILE_LABEL := ProfileID(q)], spec, false, false)];
  }

  /** As QuotaPassDecided, for a limit range pass over a store that is not empty, generated names included. */
  lemma LimitPassDecided<S>(store: Store<S>, q: ProfileKey, suffix: string, quotaCount: nat, specs: seq<S>, n: string)
    requires LimitPass(store, q, suffix, quotaCount, specs).Some? && n in store
    ensures Owned(store[n], ProfileID(q)) ==> '-' in n
    ensures RightlyRepaired(n, store[n], ProfileID(q), quotaCount, specs,
                            Entry(LimitPass(store, q, suffix, quotaCount, specs).value, n))
  {
    RepairDecided(store, ProfileID(q), quotaCount, specs, n);
  }

  /** An owned object whose index is no number survives both passes unchanged. */
  lemma UnparsedStays<S>(store: Store<S>, q: ProfileKey, suffix: string, quotaCount: nat, specs: seq<S>, n: string)
    requires |specs| <= MAX_INT && '-' !in suffix
    requires n in store && Owned(store[n], ProfileID(q)) && '-' in n && !Indexed(n)
    ensures var pass := QuotaPass(store, q, suffix, specs); pass.Some? ==> Entry(pass.value, n) == Some(store[n])
    ensures var pass := LimitPass(store, q, suffix, quotaCount, specs);
            pass.Some? ==> Entry(pass.value, n) == Some(store[n])
  {
    if Generated(n, q, |specs|, suffix) {
      var i := IndexIn(n, q, |specs|, suffix);
      IndexRoundTrip(q, i, suffix);
      IndexOfExact(n);
      assert false;
    }
    if QuotaPass(store, q, suffix, specs).Some? {
      QuotaPassDecided(store, q, suffix, specs, n);
    }
    if LimitPass(store, q, suffix, quotaCount, specs).Some? {
      LimitPassDecided(store, q, suffix, quotaCount, specs, n);
    }
  }

  /** When a pass panics, said without parsing. */
  lemma PanicDecided<S>(store: Store<S>, id: string, bound: nat, count: nat)
    ensures Accessible(store, id, bound, count)
            <==> forall n :: n in store && Owned(store[n], id) ==>
                   '-' in n && (Indexed(n) && Magnitude(IndexText(n)) < bound ==> Magnitude(IndexText(n)) < count)
  {
    forall n | n in store && Owned(store[n], id)
      ensures FateOf(n, store[n], id, bound, count).Panic?
              <==> !('-' in n && (Indexed(n) && Magnitude(IndexText(n)) < bound ==> Magnitude(IndexText(n)) < count))
    {
      IndexReadable(n);
      if '-' in n {
        IndexOfExact(n);
      }
    }
  }

  /** A name of two parts has the first where the index should be. */
  lemma IndexTextOfTwo(first: string, last: string)
    requires '-' !in first && '-' !in last
    ensures var name := first + "-" + last; '-' in name && IndexText(name) == first
  {
    var name := first + "-" + last;
    assert name == first + ['-'] + last && name[|first|] == '-';
    SplitConcat(first, last, '-');
    SplitSingle(first, '-');
    SplitSingle(last, '-');
  }

  lemma UnparsedAlone<S>(n: string, o: Object<S>, q: ProfileKey, suffix: string, specs: seq<S>)
    requires |specs| <= MAX_INT && '-' !in suffix && Owned(o, ProfileID(q)) && '-' in n && !Indexed(n)
    ensures var pass := QuotaPass(map[n := o], q, suffix, specs); pass.Some? && Entry(pass.value, n) == Some(o)
  {
    IndexAccessSafe(map[n := o], ProfileID(q), |specs|, |specs|);
    UnparsedStays(map[n := o], q, suffix, 0, specs, n);
  }

  /** An owned quota with a name of two parts of which the first is not made of digits, such as `team-quota`. */
  lemma TeamQuotaStays<S>(first: string, last: string, o: Object<S>, q: ProfileKey, specs: seq<S>)
    requires |specs| <= MAX_INT && Owned(o, ProfileID(q))
    requires '-' !in first && '-' !in last && exists i :: 1 <= i < |first| && !IsDigit(first[i])
    ensures var pass := QuotaPass(map[first + "-" + last := o], q, QUOTA_SUFFIX, specs);
            pass.Some? && Entry(pass.value, first + "-" + last) == Some(o)
  {
    IndexTextOfTwo(first, last);
    UnparsedAlone(first + "-" + last, o, q, QUOTA_SUFFIX, specs);
  }

  // ---------------------------------------------------------------- convergence of resource quotas

  /** The managed objects are exactly one per spec, named, labelled and filled as the profile says. */
  ghost predicate Converged<S>(store: Store<S>, q: ProfileKey, suffix: string, specs: seq<S>) {
    && (forall n :: n in store && Managed(store[n]) ==> Generated(n, q, |specs|, suffix))
    && forall i :: 0 <= i < |specs| ==>
         var n := GeneratedName(q, i, suffix);
         n in store && Owned(store[n], ProfileID(q)) && store[n].spec == specs[i]
  }

  /** Every object the pass leaves to itself or updates already has the name it should have. */
  ghost predicate Tidy<S>(store: Store<S>, q: ProfileKey, suffix: string, count: nat) {
    forall n :: n in store ==>
      match FateOf(n, store[n], ProfileID(q), count, count)
      case Keep => !Managed(store[n])
      case Remove => !store[n].held
      case Overwrite(i) => n == GeneratedName(q, i, suffix)
      case Panic => false
  }

  /** No unmanaged object occupies a name the pass would generate. */
  ghost predicate NamesFree<S>(store: Store<S>, q: ProfileKey, suffix: string, count: nat) {
    forall n :: n in store && Generated(n, q, count, suffix) ==> Managed(store[n])
  }

  /** The name at index `i` belongs to no other index below `count`. */
  lemma IndexInUnique(q: ProfileKey, i: nat, count: nat, suffix: string)
    requires i < count <= MAX_INT && '-' !in suffix
    ensures var n := GeneratedName(q, i, suffix); Generated(n, q, count, suffix) && IndexIn(n, q, count, suffix) == i
  {
    var n := GeneratedName(q, i, suffix);
    assert Generated(n, q, count, suffix);
    GeneratedNameInjective(q, i, IndexIn(n, q, count, suffix), suffix);
  }

  /** What a quota pass leaves under one name. */
  lemma PassAt<S>(store: Store<S>, q: ProfileKey, suffix: string, specs: seq<S>, n: string)
    requires QuotaPass(store, q, suffix, specs).Some?
    ensures var final := QuotaPass(store, q, suffix, specs).value;
            var kept := n in store && Survives(n, store[n], ProfileID(q), |specs|, |specs|);
            && (n in final <==> kept || Generated(n, q, |specs|, suffix))
            && (kept ==> final[n].labels == store[n].labels && final[n].held == store[n].held)
            && (kept ==> final[n].deleting == Repaired(n, store[n], ProfileID(q), |specs|, specs).deleting)
            && (!kept && n in final ==> final[n] == NewObject(q, final[n].spec))
            && (n in final && Generated(n, q, |specs|, suffix) ==>
                  final[n].spec == specs[IndexIn(n, q, |specs|, suffix)])
            && (kept && !Generated(n, q, |specs|, suffix) ==>
                  final[n] == Repaired(n, store[n], ProfileID(q), |specs|, specs))
  {
  }

  /**
   One pass converges from any mix of stale, surplus, missing and foreign objects exactly when the objects
   it does not remove are well named, nothing holds what it removes, and the names it generates are not
   taken by unmanaged objects.
   */
  lemma QuotasConvergeInOnePass<S>(store: Store<S>, q: ProfileKey, suffix: string, specs: seq<S>)
    requires |specs| <= MAX_INT && '-' !in suffix
    ensures var pass := QuotaPass(store, q, suffix, specs);
            pass.Some? && Converged(pass.value, q, suffix, specs)
            <==> Tidy(store, q, suffix, |specs|) && NamesFree(store, q, suffix, |specs|)
  {
    if Tidy(store, q, suffix, |specs|) && NamesFree(store, q, suffix, |specs|) {
      TidyConverges(store, q, suffix, specs);
    }
    var pass := QuotaPass(store, q, suffix, specs);
    if pass.Some? && Converged(pass.value, q, suffix, specs) {
      ConvergedWasTidy(store, q, suffix, specs);
    }
  }

  lemma TidyConverges<S>(store: Store<S>, q: ProfileKey, suffix: string, specs: seq<S>)
    requires |specs| <= MAX_INT && '-' !in suffix
    requires Tidy(store, q, suffix, |specs|) && NamesFree(store, q, suffix, |specs|)
    ensures QuotaPass(store, q, suffix, specs).Some?
    ensures Converged(QuotaPass(store, q, suffix, specs).value, q, suffix, specs)
  {
    assert Accessible(store, ProfileID(q), |specs|, |specs|);
    var final := QuotaPass(store, q, suffix, specs).value;
    forall n | n in final && Managed(final[n]) ensures Generated(n, q, |specs|, suffix) {
      PassAt(store, q, suffix, specs, n);
    }
    forall i | 0 <= i < |specs|
      ensures var n := GeneratedName(q, i, suffix);
              n in final && Owned(final[n], ProfileID(q)) && final[n].spec == specs[i]
    {
      var n := GeneratedName(q, i, suffix);
      IndexInUnique(q, i, |specs|, suffix);
      PassAt(store, q, suffix, specs, n);
    }
  }

  lemma ConvergedWasTidy<S>(store: Store<S>, q: ProfileKey, suffix: string, specs: seq<S>)
    requires |specs| <= MAX_INT && '-' !in suffix && QuotaPass(store, q, suffix, specs).Some?
    requires Converged(QuotaPass(store, q, suffix, specs).value, q, suffix, specs)
    ensures Tidy(store, q, suffix, |specs|) && NamesFree(store, q, suffix, |specs|)
  {
    var final := QuotaPass(store, q, suffix, specs).value;
    forall n | n in store && Survives(n, store[n], ProfileID(q), |specs|, |specs|)
      ensures Generated(n, q, |specs|, suffix) ==> Owned(store[n], ProfileID(q))
      ensures Managed(store[n]) ==> Generated(n, q, |specs|, suffix)
    {
      PassAt(store, q, suffix, specs, n);
      if Generated(n, q, |specs|, suffix) {
        var i := IndexIn(n, q, |specs|, suffix);
        assert Owned(final[GeneratedName(q, i, suffix)], ProfileID(q));
      }
    }
    forall n | n in store && Survives(n, store[n], ProfileID(q), |specs|, |specs|) && Managed(store[n])
      ensures var fate := FateOf(n, store[n], ProfileID(q), |specs|, |specs|);
              fate.Overwrite? && n == GeneratedName(q, fate.index, suffix)
    {
      GeneratedFate(store[n], q, IndexIn(n, q, |specs|, suffix), suffix, |specs|, |specs|);
    }
  }

  /** Whatever the starting point, no object of another profile is left except one that is terminating. */
  lemma NoForeignQuotas<S>(store: Store<S>, q: ProfileKey, suffix: string, specs: seq<S>, n: string)
    requires QuotaPass(store, q, suffix, specs).Some? && n in QuotaPass(store, q, suffix, specs).value
    ensures var o := QuotaPass(store, q, suffix, specs).value[n];
            Managed(o) && !o.deleting ==> Owned(o, ProfileID(q))
  {
    PassAt(store, q, suffix, specs, n);
  }

  /**
   An unmanaged object keeps its labels, and keeps its spec exactly when its name is not a generated one with
   another spec.
   */
  lemma UnmanagedQuotas<S>(store: Store<S>, q: ProfileKey, suffix: string, specs: seq<S>, n: string)
    requires QuotaPass(store, q, suffix, specs).Some? && n in store && !Managed(store[n])
    ensures n in QuotaPass(store, q, suffix, specs).value
    ensures var o := QuotaPass(store, q, suffix, specs).value[n];
            && o.labels == store[n].labels
            && (o == store[n] <==>
                  (Generated(n, q, |specs|, suffix) ==> specs[IndexIn(n, q, |specs|, suffix)] == store[n].spec))
  {
    PassAt(store, q, suffix, specs, n);
  }

  /** A converged store is a fixed point of the pass. */
  lemma ConvergedQuotasStay<S>(store: Store<S>, q: ProfileKey, suffix: string, specs: seq<S>)
    requires |specs| <= MAX_INT && '-' !in suffix && Converged(store, q, suffix, specs)
    ensures QuotaPass(store, q, suffix, specs) == Some(store)
  {
    forall n | n in store && Managed(store[n])
      ensures FateOf(n, store[n], ProfileID(q), |specs|, |specs|) == Overwrite(IndexIn(n, q, |specs|, suffix))
    {
      var i := IndexIn(n, q, |specs|, suffix);
      assert n == GeneratedName(q, i, suffix) && Owned(store[GeneratedName(q, i, suffix)], ProfileID(q));
      GeneratedFate(store[n], q, i, suffix, |specs|, |specs|);
    }
    assert Accessible(store, ProfileID(q), |specs|, |specs|);
    var final := QuotaPass(store, q, suffix, specs).value;
    forall n ensures n in final <==> n in store
      ensures n in store ==> final[n] == store[n]
    {
      PassAt(store, q, suffix, specs, n);
      if Generated(n, q, |specs|, suffix) {
        var i := IndexIn(n, q, |specs|, suffix);
        assert n == GeneratedName(q, i, suffix) && store[GeneratedName(q, i, suffix)].spec == specs[i];
      }
    }
    assert final == store;
  }

  // ---------------------------------------------------------------- convergence of limit ranges

  /** Every managed object that the repair lets live has a generated name. */
  ghost predicate SurvivorsNamed<S>(store: Store<S>, q: ProfileKey, suffix: string, quotaCount: nat, count: nat) {
    forall n :: n in store && Managed(store[n]) && Survives(n, store[n], ProfileID(q), quotaCount, count) ==>
      Generated(n, q, count, suffix)
  }

  /**
   Every generated object is there and carries the label; from index `quotaCount` on, where the repair
   deletes, it is held and happens to have its spec.
   */
  ghost predicate Complete<S>(store: Store<S>, q: ProfileKey, suffix: string, quotaCount: nat, specs: seq<S>) {
    forall i :: 0 <= i < |specs| ==>
      var n := GeneratedName(q, i, suffix);
      && n in store && Owned(store[n], ProfileID(q))
      && (i < quotaCount || (store[n].held && store[n].spec == specs[i]))
  }

  lemma CreatedLimits<S>(q: ProfileKey, suffix: string, quotaCount: nat, specs: seq<S>)
    requires |specs| <= MAX_INT && '-' !in suffix
    ensures var created := Ensured(map[], q, |specs|, suffix, specs);
            && (forall n :: n in created <==> Generated(n, q, |specs|, suffix))
            && (forall n :: n in created ==> created[n] == NewObject(q, specs[IndexIn(n, q, |specs|, suffix)]))
            && Converged(created, q, suffix, specs)
            && Accessible(created, ProfileID(q), quotaCount, |specs|)
  {
    var created := Ensured(map[], q, |specs|, suffix, specs);
    forall i | 0 <= i < |specs|
      ensures var n := GeneratedName(q, i, suffix);
              n in created && Owned(created[n], ProfileID(q)) && created[n].spec == specs[i]
    {
      IndexInUnique(q, i, |specs|, suffix);
    }
    forall n | n in created ensures !FateOf(n, created[n], ProfileID(q), quotaCount, |specs|).Panic? {
      GeneratedFate(created[n], q, IndexIn(n, q, |specs|, suffix), suffix, quotaCount, |specs|);
    }
  }

  /** What a repair leaves under one name. */
  lemma RepairAt<S>(store: Store<S>, id: string, bound: nat, specs: seq<S>, n: string)
    ensures var kept := Repair(store, store.Keys, id, bound, specs);
            && (n in kept <==> n in store && Survives(n, store[n], id, bound, |specs|))
            && (n in kept ==> kept[n] == Repaired(n, store[n], id, bound, specs))
  {
  }

  /** Repairing a second time changes nothing. */
  lemma RepairIdempotent<S>(store: Store<S>, id: string, bound: nat, specs: seq<S>)
    ensures var kept := Repair(store, store.Keys, id, bound, specs);
            && Repair(kept, kept.Keys, id, bound, specs) == kept
            && (Accessible(store, id, bound, |specs|) ==> Accessible(kept, id, bound, |specs|))
  {
    var kept := Repair(store, store.Keys, id, bound, specs);
    forall n | n in kept ensures FateOf(n, kept[n], id, bound, |specs|) == FateOf(n, store[n], id, bound, |specs|) {
      RepairAt(store, id, bound, specs, n);
    }
    var again := Repair(kept, kept.Keys, id, bound, specs);
    forall n
      ensures n in again <==> n in kept
      ensures n in kept ==> again[n] == kept[n]
    {
      RepairAt(store, id, bound, specs, n);
      RepairAt(kept, id, bound, specs, n);
    }
    assert again == kept;
  }

  /** A repair of freshly created objects keeps those with an index below the bound, unchanged. */
  lemma CreatedRepaired<S>(q: ProfileKey, suffix: string, quotaCount: nat, specs: seq<S>, n: string)
    requires |specs| <= MAX_INT && '-' !in suffix
    ensures var first := Ensured(map[], q, |specs|, suffix, specs);
            var second := Repair(first, first.Keys, ProfileID(q), quotaCount, specs);
            && (n in second <==> n in first && IndexIn(n, q, |specs|, suffix) < quotaCount)
            && (n in second ==> second[n] == first[n])
  {
    CreatedLimits(q, suffix, quotaCount, specs);
    var first := Ensured(map[], q, |specs|, suffix, specs);
    RepairAt(first, ProfileID(q), quotaCount, specs, n);
    if n in first {
      GeneratedFate(first[n], q, IndexIn(n, q, |specs|, suffix), suffix, quotaCount, |specs|);
    }
  }

  /** With enough quota specs a repair of freshly created objects changes nothing. */
  lemma CreatedKept<S>(q: ProfileKey, suffix: string, quotaCount: nat, specs: seq<S>)
    requires |specs| <= MAX_INT && '-' !in suffix && |specs| <= quotaCount
    ensures var first := Ensured(map[], q, |specs|, suffix, specs);
            Repair(first, first.Keys, ProfileID(q), quotaCount, specs) == first
  {
    CreatedLimits(q, suffix, quotaCount, specs);
    var first := Ensured(map[], q, |specs|, suffix, specs);
    var second := Repair(first, first.Keys, ProfileID(q), quotaCount, specs);
    forall n
      ensures n in second <==> n in first
      ensures n in second ==> second[n] == first[n]
    {
      CreatedRepaired(q, suffix, quotaCount, specs, n);
    }
    assert second == first;
  }

  /** With too few, the object at the bound is lost. */
  lemma CreatedLost<S>(q: ProfileKey, suffix: string, quotaCount: nat, specs: seq<S>)
    requires quotaCount < |specs| <= MAX_INT && '-' !in suffix
    ensures var first := Ensured(map[], q, |specs|, suffix, specs);
            && GeneratedName(q, quotaCount, suffix) in first
            && GeneratedName(q, quotaCount, suffix) !in Repair(first, first.Keys, ProfileID(q), quotaCount, specs)
  {
    CreatedLimits(q, suffix, quotaCount, specs);
    IndexInUnique(q, quotaCount, |specs|, suffix);
    CreatedRepaired(q, suffix, quotaCount, specs, GeneratedName(q, quotaCount, suffix));
  }

  /** With none, everything is lost. */
  lemma CreatedGone<S>(q: ProfileKey, suffix: string, specs: seq<S>)
    requires |specs| <= MAX_INT && '-' !in suffix
    ensures var first := Ensured(map[], q, |specs|, suffix, specs);
            Repair(first, first.Keys, ProfileID(q), 0, specs) == map[]
  {
    var first := Ensured(map[], q, |specs|, suffix, specs);
    var second := Repair(first, first.Keys, ProfileID(q), 0, specs);
    forall n ensures n !in second {
      CreatedRepaired(q, suffix, 0, specs, n);
    }
  }

  /**
   From nothing, the second pass keeps what the first created exactly when no more limit ranges than quotas
   are specified.
   */
  lemma CreatedLimitsStay<S>(q: ProfileKey, suffix: string, quotaCount: nat, specs: seq<S>)
    requires |specs| <= MAX_INT && '-' !in suffix
    ensures var first := LimitPass(map[], q, suffix, quotaCount, specs);
            && first.Some? && Converged(first.value, q, suffix, specs)
            && var second := LimitPass(first.value, q, suffix, quotaCount, specs);
               && second.Some?
               && (second == first <==> |specs| <= quotaCount)
               && (Converged(second.value, q, suffix, specs) <==> |specs| <= quotaCount)
               && (quotaCount == 0 ==> second.value == map[])
  {
    CreatedLimits(q, suffix, quotaCount, specs);
    if specs == [] {
      assert Ensured(map[], q, |specs|, suffix, specs) == map[];
    } else {
      assert GeneratedName(q, 0, suffix) in Ensured(map[], q, |specs|, suffix, specs);
      if |specs| <= quotaCount {
        CreatedKept(q, suffix, quotaCount, specs);
      } else {
        CreatedLost(q, suffix, quotaCount, specs);
        if quotaCount == 0 {
          CreatedGone(q, suffix, specs);
        }
      }
    }
  }

  /** What a repair of existing limit ranges converges to, decided on the store before it. */
  lemma RepairConverges<S>(store: Store<S>, q: ProfileKey, suffix: string, quotaCount: nat, specs: seq<S>)
    requires |specs| <= MAX_INT && '-' !in suffix
    ensures Converged(Repair(store, store.Keys, ProfileID(q), quotaCount, specs), q, suffix, specs)
            <==> SurvivorsNamed(store, q, suffix, quotaCount, |specs|) && Complete(store, q, suffix, quotaCount, specs)
  {
    var id := ProfileID(q);
    var kept := Repair(store, store.Keys, id, quotaCount, specs);
    forall n | n in store
      ensures n in kept <==> Survives(n, store[n], id, quotaCount, |specs|)
      ensures n in kept ==> kept[n].labels == store[n].labels
    {
      RepairAt(store, id, quotaCount, specs, n);
    }
    forall i | 0 <= i < |specs|
      ensures var n := GeneratedName(q, i, suffix);
              (n in kept && Owned(kept[n], id) && kept[n].spec == specs[i])
              <==> (&& n in store && Owned(store[n], id)
                    && (i < quotaCount || (store[n].held && store[n].spec == specs[i])))
    {
      var n := GeneratedName(q, i, suffix);
      RepairAt(store, id, quotaCount, specs, n);
      if n in store && Owned(store[n], id) {
        GeneratedFate(store[n], q, i, suffix, quotaCount, |specs|);
      }
    }
  }

  /** The repair removes every object there is. */
  ghost predicate AllRemoved<S>(store: Store<S>, id: string, bound: nat, count: nat) {
    forall n :: n in store ==> !Survives(n, store[n], id, bound, count)
  }

  /**
   Two passes over existing limit ranges converge exactly when no access is out of range and either the first
   pass removes them all, so that the second creates a fresh set, or what the first keeps is already the
   complete set. Objects that are missing from an incomplete set are never created.
   */
  lemma LimitsConvergeInTwoPasses<S>(store: Store<S>, q: ProfileKey, suffix: string, quotaCount: nat, specs: seq<S>)
    requires |specs| <= MAX_INT && '-' !in suffix && store != map[]
    ensures var first := LimitPass(store, q, suffix, quotaCount, specs);
            && (first.Some? <==> Accessible(store, ProfileID(q), quotaCount, |specs|))
            && (first.Some? ==>
                  var second := LimitPass(first.value, q, suffix, quotaCount, specs);
                  && second.Some?
                  && (Converged(second.value, q, suffix, specs)
                      <==> || AllRemoved(store, ProfileID(q), quotaCount, |specs|)
                           || (&& SurvivorsNamed(store, q, suffix, quotaCount, |specs|)
                               && Complete(store, q, suffix, quotaCount, specs))))
  {
    var id := ProfileID(q);
    var first := Repair(store, store.Keys, id, quotaCount, specs);
    RepairIdempotent(store, id, quotaCount, specs);
    RepairConverges(store, q, suffix, quotaCount, specs);
    forall n | n in store ensures n in first <==> Survives(n, store[n], id, quotaCount, |specs|) {
      RepairAt(store, id, quotaCount, specs, n);
    }
    if first == map[] {
      CreatedLimits(q, suffix, quotaCount, specs);
    } else {
      var n :| n in first;
      RepairAt(store, id, quotaCount, specs, n);
    }
  }

  /** A converged set stays as it is exactly when all of it from the repair's bound on is held and terminating. */
  lemma ConvergedLimitsStay<S>(store: Store<S>, q: ProfileKey, suffix: string, quotaCount: nat, specs: seq<S>)
    requires |specs| <= MAX_INT && '-' !in suffix && Converged(store, q, suffix, specs)
    ensures LimitPass(store, q, suffix, quotaCount, specs).Some?
    ensures LimitPass(store, q, suffix, quotaCount, specs).value == store
            <==> forall i :: quotaCount <= i < |specs| ==>
                   var o := store[GeneratedName(q, i, suffix)]; o.held && o.deleting
  {
    var id := ProfileID(q);
    forall n | n in store && Managed(store[n])
      ensures var i := IndexIn(n, q, |specs|, suffix);
              && FateOf(n, store[n], id, quotaCount, |specs|) == (if i >= quotaCount then Remove else Overwrite(i))
              && store[n].spec == specs[i]
    {
      var i := IndexIn(n, q, |specs|, suffix);
      assert n == GeneratedName(q, i, suffix) && store[GeneratedName(q, i, suffix)].spec == specs[i];
      GeneratedFate(store[n], q, i, suffix, quotaCount, |specs|);
    }
    assert Accessible(store, id, quotaCount, |specs|);
    assert forall i :: 0 <= i < |specs| ==> GeneratedName(q, i, suffix) in store;
    if store == map[] {
      var firstName := GeneratedName(q, 0, suffix);
      assert specs == [];
      assert LimitPass(store, q, suffix, quotaCount, specs).value == store;
    } else {
      ConvergedRepaired(store, q, suffix, quotaCount, specs);
    }
  }

  lemma ConvergedRepaired<S>(store: Store<S>, q: ProfileKey, suffix: string, quotaCount: nat, specs: seq<S>)
    requires |specs| <= MAX_INT && '-' !in suffix && Converged(store, q, suffix, specs)
    requires forall n :: n in store && Managed(store[n]) ==>
               var i := IndexIn(n, q, |specs|, suffix);
               && FateOf(n, store[n], ProfileID(q), quotaCount, |specs|)
                  == (if i >= quotaCount then Remove else Overwrite(i))
               && store[n].spec == specs[i]
    ensures Repair(store, store.Keys, ProfileID(q), quotaCount, specs) == store
            <==> forall i :: quotaCount <= i < |specs| ==>
                   var o := store[GeneratedName(q, i, suffix)]; o.held && o.deleting
  {
    var id := ProfileID(q);
    var kept := Repair(store, store.Keys, id, quotaCount, specs);
    forall n | n in store
      ensures n in kept && kept[n] == store[n]
              <==> (FateOf(n, store[n], id, quotaCount, |specs|).Remove? ==> store[n].held && store[n].deleting)
    {
      RepairAt(store, id, quotaCount, specs, n);
    }
    if i: nat :| quotaCount <= i < |specs| && !(store[GeneratedName(q, i, suffix)].held
                                                && store[GeneratedName(q, i, suffix)].deleting) {
      IndexInUnique(q, i, |specs|, suffix);
      assert GeneratedName(q, i, suffix) in store && kept != store;
    } else {
      forall n | n in store ensures n in kept && kept[n] == store[n] {
        if Managed(store[n]) {
          assert n == GeneratedName(q, IndexIn(n, q, |specs|, suffix), suffix);
        }
      }
      assert kept == store;
    }
  }

  /** After a pass no managed object of another profile is left except one that is terminating. */
  lemma NoForeignLimits<S>(store: Store<S>, q: ProfileKey, suffix: string, quotaCount: nat, specs: seq<S>, n: string)
    requires LimitPass(store, q, suffix, quotaCount, specs).Some?
    requires n in LimitPass(store, q, suffix, quotaCount, specs).value
    ensures var o := LimitPass(store, q, suffix, quotaCount, specs).value[n];
            Managed(o) && !o.deleting ==> Owned(o, ProfileID(q))
  {
    if store != map[] {
      RepairAt(store, ProfileID(q), quotaCount, specs, n);
    }
  }

  lemma NoForeignObjects<S>(before: Store<S>, after: Store<S>, q: ProfileKey, suffix: string, bound: nat, specs: seq<S>)
    requires || Some(after) == QuotaPass(before, q, suffix, specs)
             || Some(after) == LimitPass(before, q, suffix, bound, specs)
    ensures forall n :: n in after && Managed(after[n]) && !after[n].deleting ==> Owned(after[n], ProfileID(q))
  {
    forall n | n in after && Managed(after[n]) && !after[n].deleting ensures Owned(after[n], ProfileID(q)) {
      if Some(after) == QuotaPass(before, q, suffix, specs) {
        NoForeignQuotas(before, q, suffix, specs, n);
      } else {
        NoForeignLimits(before, q, suffix, bound, specs, n);
      }
    }
  }

  // ---------------------------------------------------------------- well-named objects over a run

  /** The fate of an object this controller created follows from its label and its index. */
  lemma WellNamedFate<S>(store: Store<S>, q: ProfileKey, suffix: string, bound: nat, count: nat, n: string)
    requires bound <= MAX_INT && count <= MAX_INT && '-' !in suffix && DotFree(q)
    requires WellNamed(store, suffix) && n in store && Managed(store[n])
    ensures var own := Owned(store[n], ProfileID(q));
            match FateOf(n, store[n], ProfileID(q), bound, count)
            case Keep => false
            case Remove => !(own && Generated(n, q, bound, suffix))
            case Overwrite(i) => own && i < bound && Generated(n, q, count, suffix) && n == GeneratedName(q, i, suffix)
            case Panic => own && Generated(n, q, bound, suffix) && !Generated(n, q, count, suffix)
  {
    if Owned(store[n], ProfileID(q)) {
      var i := NamedAfterOwner(store, q, suffix, n);
      GeneratedFate(store[n], q, i, suffix, bound, count);
      if Generated(n, q, bound, suffix) {
        GeneratedNameInjective(q, i, IndexIn(n, q, bound, suffix), suffix);
      }
      if Generated(n, q, count, suffix) {
        GeneratedNameInjective(q, i, IndexIn(n, q, count, suffix), suffix);
      }
    }
  }

  /** Nothing holds a managed object that the pass would have to remove. */
  ghost predicate HeldAreCurrent<S>(store: Store<S>, q: ProfileKey, suffix: string, count: nat) {
    forall n :: n in store && Managed(store[n]) && store[n].held ==>
      Owned(store[n], ProfileID(q)) && Generated(n, q, count, suffix)
  }

  /**
   Over objects this controller created a quota pass never panics, and converges exactly when the held ones
   belong to the current set and the names are free.
   */
  lemma WellNamedConverges<S>(store: Store<S>, q: ProfileKey, suffix: string, specs: seq<S>)
    requires |specs| <= MAX_INT && '-' !in suffix && DotFree(q) && WellNamed(store, suffix)
    ensures QuotaPass(store, q, suffix, specs).Some?
    ensures Converged(QuotaPass(store, q, suffix, specs).value, q, suffix, specs)
            <==> NamesFree(store, q, suffix, |specs|) && HeldAreCurrent(store, q, suffix, |specs|)
  {
    forall n | n in store && Managed(store[n])
      ensures var fate := FateOf(n, store[n], ProfileID(q), |specs|, |specs|);
              if Owned(store[n], ProfileID(q)) && Generated(n, q, |specs|, suffix)
              then fate.Overwrite? && n == GeneratedName(q, fate.index, suffix)
              else fate.Remove?
    {
      WellNamedFate(store, q, suffix, |specs|, |specs|, n);
    }
    QuotasConvergeInOnePass(store, q, suffix, specs);
  }

  /**
   A limit range pass over objects this controller created succeeds and converges exactly when the set is
   complete and what the pass cannot remove, the held and those of a lower index than there are resource quota
   specs, are among the names it generates.
   */
  lemma WellNamedLimitsConverge<S>(store: Store<S>, q: ProfileKey, suffix: string, quotaCount: nat, specs: seq<S>)
    requires |specs| <= MAX_INT && quotaCount <= MAX_INT && '-' !in suffix && DotFree(q)
    requires WellNamed(store, suffix) && store != map[]
    ensures var pass := LimitPass(store, q, suffix, quotaCount, specs);
            pass.Some? && Converged(pass.value, q, suffix, specs)
            <==> && Complete(store, q, suffix, quotaCount, specs)
                 && forall n :: n in store && Managed(store[n]) ==>
                      store[n].held || (Owned(store[n], ProfileID(q)) && Generated(n, q, quotaCount, suffix)) ==>
                        Generated(n, q, |specs|, suffix)
  {
    forall n | n in store && Managed(store[n])
      ensures var fate := FateOf(n, store[n], ProfileID(q), quotaCount, |specs|);
              var low := Owned(store[n], ProfileID(q)) && Generated(n, q, quotaCount, suffix);
              && (fate.Panic? <==> low && !Generated(n, q, |specs|, suffix))
              && (fate.Remove? <==> !low)
    {
      WellNamedFate(store, q, suffix, quotaCount, |specs|, n);
    }
    RepairConverges(store, q, suffix, quotaCount, specs);
  }

  /** Every pass keeps the store well named. */
  lemma QuotaPassKeepsNames<S>(store: Store<S>, q: ProfileKey, suffix: string, specs: seq<S>)
    requires |specs| <= MAX_INT && DotFree(q) && WellNamed(store, suffix)
    ensures var pass := QuotaPass(store, q, suffix, specs); pass.Some? ==> WellNamed(pass.value, suffix)
  {
    var pass := QuotaPass(store, q, suffix, specs);
    if pass.Some? {
      var final := pass.value;
      forall n | n in final && Managed(final[n]) ensures exists key, i :: NamedAfter(n, final[n], suffix, key, i) {
        PassAt(store, q, suffix, specs, n);
        if n in store && Survives(n, store[n], ProfileID(q), |specs|, |specs|) {
          var key, i :| NamedAfter(n, store[n], suffix, key, i);
          assert NamedAfter(n, final[n], suffix, key, i);
        } else {
          assert NamedAfter(n, final[n], suffix, q, IndexIn(n, q, |specs|, suffix));
        }
      }
    }
  }

  lemma RepairKeepsNames<S>(store: Store<S>, done: set<string>, id: string, suffix: string, bound: nat, specs: seq<S>)
    requires WellNamed(store, suffix)
    ensures WellNamed(Repair(store, done, id, bound, specs), suffix)
  {
    var after := Repair(store, done, id, bound, specs);
    forall n | n in after && Managed(after[n]) ensures exists key, i :: NamedAfter(n, after[n], suffix, key, i) {
      var key, i :| NamedAfter(n, store[n], suffix, key, i);
      assert NamedAfter(n, after[n], suffix, key, i);
    }
  }

  lemma LimitPassKeepsNames<S>(store: Store<S>, q: ProfileKey, suffix: string, quotaCount: nat, specs: seq<S>)
    requires |specs| <= MAX_INT && DotFree(q) && WellNamed(store, suffix)
    ensures var pass := LimitPass(store, q, suffix, quotaCount, specs); pass.Some? ==> WellNamed(pass.value, suffix)
  {
    if store == map[] {
      var final := Ensured(store, q, |specs|, suffix, specs);
      forall n | n in final ensures exists key, i :: NamedAfter(n, final[n], suffix, key, i) {
        assert NamedAfter(n, final[n], suffix, q, IndexIn(n, q, |specs|, suffix));
      }
    } else {
      RepairKeepsNames(store, store.Keys, ProfileID(q), suffix, quotaCount, specs);
    }
  }

  /** A pass that panics leaves the store well named too. */
  lemma PanicKeepsNames<S>(before: Store<S>, after: Store<S>, id: string, suffix: string, bound: nat, specs: seq<S>)
    requires WellNamed(before, suffix) && PartlyRepaired(before, after, id, bound, specs)
    ensures WellNamed(after, suffix)
  {
    var done :| Handles(before, done, id, bound, |specs|) && after == Repair(before, done, id, bound, specs);
    RepairKeepsNames(before, done, id, suffix, bound, specs);
  }

  /** And so does the deletion of everything managed. */
  lemma NamesWithoutManaged<S>(store: Store<S>, suffix: string)
    ensures WellNamed(store, suffix) ==> WellNamed(WithoutManaged(store, store.Keys), suffix)
  {
    var after := WithoutManaged(store, store.Keys);
    if WellNamed(store, suffix) {
      forall n | n in after && Managed(after[n]) ensures exists key, i :: NamedAfter(n, after[n], suffix, key, i) {
        var key, i :| NamedAfter(n, store[n], suffix, key, i);
        assert NamedAfter(n, after[n], suffix, key, i);
      }
    }
  }

  /** Whichever pass ran and however it ended. */
  lemma PassKeepsNames<S>(before: Store<S>, after: Store<S>, q: ProfileKey, suffix: string, bound: nat, specs: seq<S>)
    requires |specs| <= MAX_INT && DotFree(q)
    requires || Ran(before, after, QuotaPass(before, q, suffix, specs), ProfileID(q), |specs|, specs)
             || Ran(before, after, LimitPass(before, q, suffix, bound, specs), ProfileID(q), bound, specs)
    ensures WellNamed(before, suffix) ==> WellNamed(after, suffix)
  {
    if WellNamed(before, suffix) {
      QuotaPassKeepsNames(before, q, suffix, specs);
      LimitPassKeepsNames(before, q, suffix, bound, specs);
      if PartlyRepaired(before, after, ProfileID(q), |specs|, specs) {
        PanicKeepsNames(before, after, ProfileID(q), suffix, |specs|, specs);
      }
      if PartlyRepaired(before, after, ProfileID(q), bound, specs) {
        PanicKeepsNames(before, after, ProfileID(q), suffix, bound, specs);
      }
    }
  }

  /** Over objects this controller created, a reconcile panics only in the limit range pass. */
  lemma WellNamedPanic<S, T>(quotas: Store<S>, limits: Store<T>, q: ProfileKey, quotaSpecs: seq<S>, limitSpecs: seq<T>)
    requires |quotaSpecs| <= MAX_INT && DotFree(q)
    requires WellNamed(quotas, QUOTA_SUFFIX) && WellNamed(limits, LIMIT_SUFFIX)
    ensures QuotaPass(quotas, q, QUOTA_SUFFIX, quotaSpecs).Some?
    ensures LimitPass(limits, q, LIMIT_SUFFIX, |quotaSpecs|, limitSpecs) == None
            <==> exists i :: |limitSpecs| <= i < |quotaSpecs|
                             && Holds(limits, GeneratedName(q, i, LIMIT_SUFFIX), ProfileID(q))
  {
    WellNamedConverges(quotas, q, QUOTA_SUFFIX, quotaSpecs);
    WellNamedAccess(limits, q, LIMIT_SUFFIX, |quotaSpecs|, |limitSpecs|);
  }

  // ---------------------------------------------------------------- the reconciler

  /** Repair of one more listed object. */
  lemma RepairStep<S>(store: Store<S>, done: set<string>, n: string, id: string, bound: nat, specs: seq<S>)
    requires n in store && n !in done
    ensures var before := Repair(store, done, id, bound, specs);
            && n in before && before[n] == store[n]
            && Repair(store, done + {n}, id, bound, specs)
               == match FateOf(n, store[n], id, bound, |specs|)
                  case Remove => Delete(before, n)
                  case Overwrite(i) => before[n := store[n].(spec := specs[i])]
                  case _ => before
  {
  }

  /** A pass over a nonempty store ends at the first object it panics on, or has handled all of them. */
  lemma PassStops<S>(store: Store<S>, done: set<string>, n: string, id: string, bound: nat, specs: seq<S>)
    requires Handles(store, done, id, bound, |specs|) && n in store && FateOf(n, store[n], id, bound, |specs|).Panic?
    ensures !Accessible(store, id, bound, |specs|)
    ensures PartlyRepaired(store, Repair(store, done, id, bound, specs), id, bound, specs)
  {
  }

  /** Raising the count by one adds one name and leaves the index of every other. */
  lemma GeneratedStep(q: ProfileKey, i: nat, suffix: string, m: string)
    requires i < MAX_INT && '-' !in suffix && m != GeneratedName(q, i, suffix)
    ensures Generated(m, q, i, suffix) <==> Generated(m, q, i + 1, suffix)
    ensures Generated(m, q, i, suffix) ==> IndexIn(m, q, i, suffix) == IndexIn(m, q, i + 1, suffix)
  {
    if Generated(m, q, i + 1, suffix) {
      var j := IndexIn(m, q, i + 1, suffix);
      assert m == GeneratedName(q, j, suffix);
      IndexInUnique(q, j, i, suffix);
    }
    if Generated(m, q, i, suffix) {
      var j := IndexIn(m, q, i, suffix);
      assert m == GeneratedName(q, j, suffix);
      IndexInUnique(q, j, i + 1, suffix);
    }
  }

  lemma NextNameIsNew(q: ProfileKey, i: nat, suffix: string)
    requires i < MAX_INT && '-' !in suffix
    ensures var n := GeneratedName(q, i, suffix);
            !Generated(n, q, i, suffix) && Generated(n, q, i + 1, suffix) && IndexIn(n, q, i + 1, suffix) == i
  {
    var n := GeneratedName(q, i, suffix);
    IndexInUnique(q, i, i + 1, suffix);
    if Generated(n, q, i, suffix) {
      GeneratedNameInjective(q, i, IndexIn(n, q, i, suffix), suffix);
    }
  }

  lemma EnsuredOther<S>(store: Store<S>, q: ProfileKey, i: nat, suffix: string, specs: seq<S>, m: string)
    requires i < |specs| <= MAX_INT && '-' !in suffix && m != GeneratedName(q, i, suffix)
    ensures var before, after := Ensured(store, q, i, suffix, specs), Ensured(store, q, i + 1, suffix, specs);
            (m in before <==> m in after) && (m in before ==> before[m] == after[m])
  {
    GeneratedStep(q, i, suffix, m);
  }

  lemma EnsuredNext<S>(store: Store<S>, q: ProfileKey, i: nat, suffix: string, specs: seq<S>)
    requires i < |specs| <= MAX_INT && '-' !in suffix
    ensures var before, after := Ensured(store, q, i, suffix, specs), Ensured(store, q, i + 1, suffix, specs);
            var n := GeneratedName(q, i, suffix);
            && (n in before <==> n in store) && (n in store ==> before[n] == store[n])
            && n in after && after[n] == if n in store then store[n].(spec := specs[i]) else NewObject(q, specs[i])
  {
    NextNameIsNew(q, i, suffix);
  }

  /** Get-or-create of one more generated object. */
  lemma EnsuredStep<S>(store: Store<S>, q: ProfileKey, i: nat, suffix: string, specs: seq<S>, before: Store<S>)
    requires i < |specs| <= MAX_INT && '-' !in suffix
    requires before == Ensured(store, q, i, suffix, specs)
    ensures var n := GeneratedName(q, i, suffix);
            Ensured(store, q, i + 1, suffix, specs)
            == before[n := if n in before then before[n].(spec := specs[i]) else NewObject(q, specs[i])]
  {
    var n := GeneratedName(q, i, suffix);
    EnsuredNext(store, q, i, suffix, specs);
    var expected := before[n := if n in before then before[n].(spec := specs[i]) else NewObject(q, specs[i])];
    var after := Ensured(store, q, i + 1, suffix, specs);
    forall m ensures m in after <==> m in expected
      ensures m in after ==> after[m] == expected[m]
    {
      if m != n {
        EnsuredOther(store, q, i, suffix, specs, m);
      }
    }
    assert after == expected;
  }

  /** The store after `deleteManaged...`: of the managed objects only held ones are left, and those are terminating. */
  ghost function WithoutManaged<S>(store: Store<S>, done: set<string>): Store<S> {
    map n | n in store && (n in done && Managed(store[n]) ==> store[n].deleting || store[n].held)
          :: if n in done && Managed(store[n]) then store[n].(deleting := true) else store[n]
  }

  /**
   A namespace without a label: an unmanaged object and one that is terminating are left alone, a managed one goes
   or is terminating if something holds it, and nothing comes into being.
   */
  lemma WithoutManagedDecided<S>(store: Store<S>, n: string)
    ensures Entry(WithoutManaged(store, store.Keys), n)
            == if n !in store then None
               else if PROFILE_LABEL !in store[n].labels || store[n].deleting then Some(store[n])
               else if store[n].held then Some(Object(store[n].labels, store[n].spec, true, true))
               else None
  {
  }

  /** What a reconcile of a namespace with these labels makes of its quotas; `None` is a panic. */
  ghost function QuotasFor(profiles: Profiles, labels: Labels, quotas: Store<ResourceQuotaSpec>)
    : Option<Store<ResourceQuotaSpec>>
  {
    match Assigned(labels)
    case None => Some(WithoutManaged(quotas, quotas.Keys))
    case Some(k) =>
      if k in profiles then QuotaPass(quotas, k, QUOTA_SUFFIX, profiles[k].spec.resourceQuotaSpecs) else Some(quotas)
  }

  lemma WithoutManagedStep<S>(store: Store<S>, done: set<string>, n: string)
    requires n in store && n !in done
    ensures var before := WithoutManaged(store, done);
            && n in before && before[n] == store[n]
            && WithoutManaged(store, done + {n})
               == if store[n].deleting || !Managed(store[n]) then before else Delete(before, n)
  {
  }

  /** The part of a namespace the controller looks at. */
  datatype NamespaceMeta = NamespaceMeta(labels: Labels, deleting: bool)

  /** The length of a list is a machine integer. */
  predicate Countable(q: QuotaProfile) {
    |q.spec.resourceQuotaSpecs| <= MAX_INT && |q.spec.limitRangeSpecs| <= MAX_INT
  }

  /** The managed objects of one namespace, as the reconciler sees and changes them through the client. */
  class NamespaceReconciler {
    var quotas: Store<ResourceQuotaSpec>
    var limits: Store<LimitRangeSpec>

    constructor (quotas: Store<ResourceQuotaSpec>, limits: Store<LimitRangeSpec>)
      ensures this.quotas == quotas && this.limits == limits
    {
      this.quotas, this.limits := quotas, limits;
    }

    /** The body of the repair loop of `reconcileResourceQuotas`; it panics on a name without a hyphen. */
    method RepairQuota(name: string, rg: Object<ResourceQuotaSpec>, id: string, specs: seq<ResourceQuotaSpec>,
                       ghost start: Store<ResourceQuotaSpec>, ghost done: set<string>) returns (crashed: bool)
      requires name in start && start[name] == rg && name !in done
      requires quotas == Repair(start, done, id, |specs|, specs)
      modifies this`quotas
      ensures crashed <==> FateOf(name, rg, id, |specs|, |specs|).Panic?
      ensures crashed ==> quotas == old(quotas)
      ensures !crashed ==> quotas == Repair(start, done + {name}, id, |specs|, specs)
    {
      RepairStep(start, done, name, id, |specs|, specs);
      if !Managed(rg) {
        return false;
      }
      if rg.labels[PROFILE_LABEL] != id {
        quotas := Delete(quotas, name);
        return false;
      }
      if |Split(name, '-')| < 2 {
        return true;
      }
      var index := IndexOf(name);
      if index == None {
        return false;
      }
      if index.value >= |specs| {
        quotas := Delete(quotas, name);
        return false;
      }
      IndexNonNegative(name);
      quotas := quotas[name := rg.(spec := specs[index.value])];
      return false;
    }

    /** The get-or-create loop of `reconcileResourceQuotas`. */
    method EnsureQuotas(q: ProfileKey, specs: seq<ResourceQuotaSpec>)
      requires |specs| <= MAX_INT
      modifies this`quotas
      ensures quotas == Ensured(old(quotas), q, |specs|, QUOTA_SUFFIX, specs)
    {
      ghost var start := quotas;
      for i := 0 to |specs|
        invariant quotas == Ensured(start, q, i, QUOTA_SUFFIX, specs)
      {
        EnsuredStep(start, q, i, QUOTA_SUFFIX, specs, quotas);
        var name := GeneratedName(q, i, QUOTA_SUFFIX);
        if name in quotas {
          quotas := quotas[name := quotas[name].(spec := specs[i])];
        } else {
          quotas := quotas[name := NewObject(q, specs[i])];
        }
      }
    }

    method ReconcileResourceQuotas(q: QuotaProfile) returns (crashed: bool)
      requires Countable(q)
      modifies this`quotas
      ensures var specs := q.spec.resourceQuotaSpecs;
              var pass := QuotaPass(old(quotas), q.key, QUOTA_SUFFIX, specs);
              && (crashed <==> pass == None)
              && Ran(old(quotas), quotas, pass, ProfileID(q.key), |specs|, specs)
    {
      var id, specs := ProfileID(q.key), q.spec.resourceQuotaSpecs;
      ghost var start, done: set<string> := quotas, {};
      var items := ListItems(quotas);
      ItemsListed(items, start);
      for i := 0 to |items|
        invariant forall n :: n in done <==> exists j :: 0 <= j < i && items[j].0 == n
        invariant Handles(start, done, id, |specs|, |specs|)
        invariant quotas == Repair(start, done, id, |specs|, specs)
      {
        crashed := RepairQuota(items[i].0, items[i].1, id, specs, start, done);
        if crashed {
          PassStops(start, done, items[i].0, id, |specs|, specs);
          return;
        }
        done := done + {items[i].0};
      }
      assert done == start.Keys;
      EnsureQuotas(q.key, specs);
      return false;
    }

    /**
     The body of the repair loop of `reconcileLimitRanges`; it panics on a name without a hyphen and on an index
     that is below `bound` but past the end of `specs`.
     */
    method RepairLimit(name: string, lr: Object<LimitRangeSpec>, id: string, bound: nat, specs: seq<LimitRangeSpec>,
                       ghost start: Store<LimitRangeSpec>, ghost done: set<string>) returns (crashed: bool)
      requires name in start && start[name] == lr && name !in done
      requires limits == Repair(start, done, id, bound, specs)
      modifies this`limits
      ensures crashed <==> FateOf(name, lr, id, bound, |specs|).Panic?
      ensures crashed ==> limits == old(limits)
      ensures !crashed ==> limits == Repair(start, done + {name}, id, bound, specs)
    {
      RepairStep(start, done, name, id, bound, specs);
      if !Managed(lr) {
        return false;
      }
      if lr.labels[PROFILE_LABEL] != id {
        limits := Delete(limits, name);
        return false;
      }
      if |Split(name, '-')| < 2 {
        return true;
      }
      var index := IndexOf(name);
      if index == None {
        return false;
      }
      if index.value >= bound {
        limits := Delete(limits, name);
        return false;
      }
      if !(0 <= index.value < |specs|) {
        return true;
      }
      limits := limits[name := lr.(spec := specs[index.value])];
      return false;
    }

    /** The creation loop of `reconcileLimitRanges`. */
    method CreateLimits(q: ProfileKey, specs: seq<LimitRangeSpec>)
      requires |specs| <= MAX_INT && limits == map[]
      modifies this`limits
      ensures limits == Ensured(map[], q, |specs|, LIMIT_SUFFIX, specs)
    {
      for i := 0 to |specs|
        invariant limits == Ensured(map[], q, i, LIMIT_SUFFIX, specs)
      {
        EnsuredStep(map[], q, i, LIMIT_SUFFIX, specs, limits);
        EnsuredNext(map[], q, i, LIMIT_SUFFIX, specs);
        limits := limits[GeneratedName(q, i, LIMIT_SUFFIX) := NewObject(q, specs[i])];
      }
    }

    method ReconcileLimitRanges(q: QuotaProfile) returns (crashed: bool)
      requires Countable(q)
      modifies this`limits
      ensures var specs, bound := q.spec.limitRangeSpecs, |q.spec.resourceQuotaSpecs|;
              var pass := LimitPass(old(limits), q.key, LIMIT_SUFFIX, bound, specs);
              && (crashed <==> pass == None)
              && Ran(old(limits), limits, pass, ProfileID(q.key), bound, specs)
    {
      var id, specs, bound := ProfileID(q.key), q.spec.limitRangeSpecs, |q.spec.resourceQuotaSpecs|;
      ghost var start, done: set<string> := limits, {};
      var items := ListItems(limits);
      ItemsListed(items, start);
      if |items| != 0 {
        assert items[0].0 in start;
        for i := 0 to |items|
          invariant forall n :: n in done <==> exists j :: 0 <= j < i && items[j].0 == n
          invariant Handles(start, done, id, bound, |specs|)
          invariant limits == Repair(start, done, id, bound, specs)
        {
          crashed := RepairLimit(items[i].0, items[i].1, id, bound, specs, start, done);
          if crashed {
            PassStops(start, done, items[i].0, id, bound, specs);
            return;
          }
          done := done + {items[i].0};
        }
        assert done == start.Keys && Accessible(start, id, bound, |specs|);
        return false;
      } else {
        assert start == map[];
        CreateLimits(q.key, specs);
        return false;
      }
    }

    method DeleteManagedResourceQuotas()
      modifies this`quotas
      ensures quotas == WithoutManaged(old(quotas), old(quotas.Keys))
    {
      ghost var start, done: set<string> := quotas, {};
      var items := ListItems(quotas);
      ItemsListed(items, quotas);
      for i := 0 to |items|
        invariant forall n :: n in done <==> exists j :: 0 <= j < i && items[j].0 == n
        invariant quotas == WithoutManaged(start, done)
      {
        var (name, rq) := items[i];
        WithoutManagedStep(start, done, name);
        done := done + {name};
        if rq.deleting || !Managed(rq) {
          continue;
        }
        quotas := Delete(quotas, name);
      }
      assert done == start.Keys;
    }

    method DeleteManagedLimitRanges()
      modifies this`limits
      ensures limits == WithoutManaged(old(limits), old(limits.Keys))
    {
      ghost var start, done: set<string> := limits, {};
      var items := ListItems(limits);
      ItemsListed(items, limits);
      for i := 0 to |items|
        invariant forall n :: n in done <==> exists j :: 0 <= j < i && items[j].0 == n
        invariant limits == WithoutManaged(start, done)
      {
        var (name, lr) := items[i];
        WithoutManagedStep(start, done, name);
        done := done + {name};
        if lr.deleting || !Managed(lr) {
          continue;
        }
        limits := Delete(limits, name);
      }
      assert done == start.Keys;
    }

    /** Every managed object that is not terminating carries exactly this label. */
    ghost predicate AllLabelled(profileID: string)
      reads this
    {
      && (forall n :: n in quotas && Managed(quotas[n]) && !quotas[n].deleting ==> Owned(quotas[n], profileID))
      && (forall n :: n in limits && Managed(limits[n]) && !limits[n].deleting ==> Owned(limits[n], profileID))
    }

    ghost predicate NoneManaged()
      reads this
    {
      && (forall n :: n in quotas && Managed(quotas[n]) ==> quotas[n].deleting)
      && (forall n :: n in limits && Managed(limits[n]) ==> limits[n].deleting)
    }

    /** The effect of a reconcile for profile `q`: quotas first, and limit ranges only if that did not panic. */
    twostate predicate Reconciled(q: QuotaProfile, crashed: bool)
      reads this
    {
      var id, quotaSpecs, limitSpecs := ProfileID(q.key), q.spec.resourceQuotaSpecs, q.spec.limitRangeSpecs;
      var quotaPass := QuotaPass(old(quotas), q.key, QUOTA_SUFFIX, quotaSpecs);
      var limitPass := LimitPass(old(limits), q.key, LIMIT_SUFFIX, |quotaSpecs|, limitSpecs);
      && (crashed <==> quotaPass == None || limitPass == None)
      && Ran(old(quotas), quotas, quotaPass, id, |quotaSpecs|, quotaSpecs)
      && (if quotaPass == None then limits == old(limits)
          else Ran(old(limits), limits, limitPass, id, |quotaSpecs|, limitSpecs))
    }

    /**
     `Reconcile` of a namespace, `None` if it is not found. Nothing is left over: without a label no managed
     object stays, with the label of a stored profile every managed object that stays carries that label. A
     label that names no stored profile changes nothing. The naming scheme of managed objects survives every
     outcome, and while it holds the reconcile panics exactly when a limit range of the profile has an index for
     which there is a resource quota spec and no limit range spec.
     */
    method Reconcile(ns: Option<NamespaceMeta>, profiles: Profiles) returns (crashed: bool)
      requires KeysAgree(profiles) && ProfileKey("", "") !in profiles
      requires forall k :: k in profiles ==> Countable(profiles[k])
      modifies this
      ensures ns.None? || ns.value.deleting ==> !crashed && quotas == old(quotas) && limits == old(limits)
      ensures ns.Some? && !ns.value.deleting && Assigned(ns.value.labels).None? ==>
                && !crashed && NoneManaged()
                && quotas == WithoutManaged(old(quotas), old(quotas.Keys))
                && limits == WithoutManaged(old(limits), old(limits.Keys))
      ensures ns.Some? && !ns.value.deleting && Assigned(ns.value.labels).Some? ==>
                var k := Assigned(ns.value.labels).value;
                if k !in profiles then !crashed && quotas == old(quotas) && limits == old(limits)
                else
                  && Reconciled(profiles[k], crashed)
                  && (!crashed ==> AllLabelled(ns.value.labels[PROFILE_LABEL]))
                  && (WellNamed(old(quotas), QUOTA_SUFFIX) && WellNamed(old(limits), LIMIT_SUFFIX) ==>
                        (crashed <==> exists i ::
                           && |profiles[k].spec.limitRangeSpecs| <= i < |profiles[k].spec.resourceQuotaSpecs|
                           && Holds(old(limits), GeneratedName(k, i, LIMIT_SUFFIX), ProfileID(k))))
      ensures ns.Some? && !ns.value.deleting ==>
                match QuotasFor(profiles, ns.value.labels, old(quotas))
                case Some(final) => quotas == final
                case None => crashed
      ensures WellNamed(old(quotas), QUOTA_SUFFIX) ==> WellNamed(quotas, QUOTA_SUFFIX)
      ensures WellNamed(old(limits), LIMIT_SUFFIX) ==> WellNamed(limits, LIMIT_SUFFIX)
    {
      if ns == None || ns.value.deleting {
        return false;
      }
      if PROFILE_LABEL !in ns.value.labels {
        DeleteManagedResourceQuotas();
        DeleteManagedLimitRanges();
        NamesWithoutManaged(old(quotas), QUOTA_SUFFIX);
        NamesWithoutManaged(old(limits), LIMIT_SUFFIX);
        return false;
      }
      var profileID := ns.value.labels[PROFILE_LABEL];
      var key := SplitProfileID(profileID);
      if key !in profiles {
        return false;
      }
      var q := profiles[key];
      SplitProfileIDInverse(profileID);
      SplitProfileIDDotFree(profileID);
      if WellNamed(quotas, QUOTA_SUFFIX) && WellNamed(limits, LIMIT_SUFFIX) {
        WellNamedPanic(quotas, limits, key, q.spec.resourceQuotaSpecs, q.spec.limitRangeSpecs);
      }
      crashed := ReconcileResourceQuotas(q);
      PassKeepsNames(old(quotas), quotas, key, QUOTA_SUFFIX, |q.spec.resourceQuotaSpecs|, q.spec.resourceQuotaSpecs);
      if crashed {
        return;
      }
      crashed := ReconcileLimitRanges(q);
      PassKeepsNames(old(limits), limits, key, LIMIT_SUFFIX, |q.spec.resourceQuotaSpecs|, q.spec.limitRangeSpecs);
      if !crashed {
        NoForeignObjects(old(quotas), quotas, key, QUOTA_SUFFIX, |q.spec.resourceQuotaSpecs|,
                         q.spec.resourceQuotaSpecs);
        NoForeignObjects(old(limits), limits, key, LIMIT_SUFFIX, |q.spec.resourceQuotaSpecs|, q.spec.limitRangeSpecs);
      }
    }
  }
}
