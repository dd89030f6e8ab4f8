/**
 * The flagd configuration builder of the flag service.
 *
 * The builder takes the stored features and feature states. For every feature it
 * emits one flag, keyed by the feature's key, whose on/off status is the `state`
 * of the FIRST feature state in list order that carries that key and a recognised
 * context type ("workspace", "organization" or "global"). When no state qualifies,
 * the flag is off. No targeting rules are emitted, and the context id of a state
 * never matters.
 *
 * The two database reads that feed the builder are parameters here.
 */
module FlagdConfig {
  import opened Optional

  /** A row of the features table (timestamps left out). */
  datatype Feature = Feature(id: string, key: string, name: string, description: Option<string>)

  /**
   * A row of the feature-states table, joined with the feature it belongs to.
   * The context type is free text in the table; only three values are recognised.
   */
  datatype FeatureState = FeatureState(
    id: string,
    featureId: string,
    contextType: string,
    contextId: Option<string>,
    state: bool,
    feature: Feature)

  datatype FlagState = Enabled | Disabled
  datatype Variant = On | Off
  datatype Variants = Variants(on: bool, off: bool)

  /** One entry of the `flags` dictionary. */
  datatype FlagEntry = FlagEntry(state: FlagState, variants: Variants, defaultVariant: Variant)

  /** The generated document: the flag-definition schema URL and the flags by feature key. */
  datatype Config = Config(schema: string, flags: map<string, FlagEntry>)

  const SchemaUrl: string := "https://flagd.dev/schema/v0/flags.json"

  /** The context types the search recognises; any other value is skipped. */
  predicate IsRecognisedContext(contextType: string)
  {
    contextType == "workspace" || contextType == "organization" || contextType == "global"
  }

  /** A feature state decides the flag for `key` when it carries that key and a recognised context type. */
  predicate Qualifies(s: FeatureState, key: string)
  {
    s.feature.key == key && IsRecognisedContext(s.contextType)
  }

  /** The status the search finds for `key`: the state of the first qualifying entry, or false. */
  function FeatureStateOf(key: string, states: seq<FeatureState>): bool
  {
    if states == [] then false
    else if Qualifies(states[0], key) then states[0].state
    else FeatureStateOf(key, states[1..])
  }

  /** `i` is the smallest index whose entry qualifies for `key`. */
  ghost predicate IsFirstQualifying(key: string, states: seq<FeatureState>, i: int)
  {
    0 <= i < |states| && Qualifies(states[i], key)
    && forall j :: 0 <= j < i ==> !Qualifies(states[j], key)
  }

  /** The first qualifying entry decides the status. */
  lemma {:induction false} FirstQualifyingDecides(key: string, states: seq<FeatureState>, i: int)
    requires IsFirstQualifying(key, states, i)
    ensures FeatureStateOf(key, states) == states[i].state
  {
    if i > 0 {
      assert forall j :: 0 <= j < i - 1 ==> states[1..][j] == states[j + 1];
      FirstQualifyingDecides(key, states[1..], i - 1);
    }
  }

  /** With no qualifying entry, in particular with no entries at all, the status is false. */
  lemma {:induction false} NoQualifyingMeansDisabled(key: string, states: seq<FeatureState>)
    requires forall i :: 0 <= i < |states| ==> !Qualifies(states[i], key)
    ensures !FeatureStateOf(key, states)
  {
    if states != [] {
      assert forall i :: 0 <= i < |states| - 1 ==> states[1..][i] == states[i + 1];
      NoQualifyingMeansDisabled(key, states[1..]);
    }
  }

  /** The status is true exactly when some entry qualifies and the first one that does holds true. */
  lemma {:induction false} FeatureStateOfCharacterised(key: string, states: seq<FeatureState>)
    ensures FeatureStateOf(key, states)
      <==> exists i :: IsFirstQualifying(key, states, i) && states[i].state
  {
    if states == [] {
    } else if Qualifies(states[0], key) {
      assert IsFirstQualifying(key, states, 0);
      forall i | IsFirstQualifying(key, states, i)
        ensures i == 0
      {
      }
    } else {
      var rest := states[1..];
      FeatureStateOfCharacterised(key, rest);
      if exists i :: IsFirstQualifying(key, rest, i) && rest[i].state {
        var i :| IsFirstQualifying(key, rest, i) && rest[i].state;
        assert IsFirstQualifying(key, states, i + 1);
      }
      if exists i :: IsFirstQualifying(key, states, i) && states[i].state {
        var i :| IsFirstQualifying(key, states, i) && states[i].state;
        assert IsFirstQualifying(key, rest, i - 1);
      }
    }
  }

  /**
   * An entry that does not qualify (a different key, or the right key with an
   * unrecognised context type) is skipped: the search goes on past it as if it
   * were not there.
   */
  lemma {:induction false} UnqualifiedEntryIgnored(
    key: string, before: seq<FeatureState>, s: FeatureState, after: seq<FeatureState>)
    requires !Qualifies(s, key)
    ensures FeatureStateOf(key, before + [s] + after) == FeatureStateOf(key, before + after)
  {
    if before == [] {
      assert before + [s] + after == [s] + after && before + after == after;
      assert ([s] + after)[1..] == after;
    } else {
      assert (before + [s] + after)[1..] == before[1..] + [s] + after;
      assert (before + after)[1..] == before[1..] + after;
      UnqualifiedEntryIgnored(key, before[1..], s, after);
    }
  }

  /** The two lists are equal except, possibly, for the context ids of their entries. */
  ghost predicate DifferOnlyInContextIds(a: seq<FeatureState>, b: seq<FeatureState>)
  {
    |a| == |b| && forall i :: 0 <= i < |a| ==> a[i].(contextId := b[i].contextId) == b[i]
  }

  /** The context id of an entry never influences the status. */
  lemma {:induction false} ContextIdIrrelevant(key: string, a: seq<FeatureState>, b: seq<FeatureState>)
    requires DifferOnlyInContextIds(a, b)
    ensures FeatureStateOf(key, a) == FeatureStateOf(key, b)
  {
    if a != [] {
      assert a[0].(contextId := b[0].contextId) == b[0];
      assert DifferOnlyInContextIds(a[1..], b[1..]) by {
        forall i | 0 <= i < |a| - 1
          ensures a[1..][i].(contextId := b[1..][i].contextId) == b[1..][i]
        {
          assert a[1..][i] == a[i + 1] && b[1..][i] == b[i + 1];
        }
      }
      ContextIdIrrelevant(key, a[1..], b[1..]);
    }
  }

  /** The search over the feature states, in list order, with an early return. */
  method GetFeatureState(featureKey: string, featureStatesList: seq<FeatureState>) returns (enabled: bool)
    ensures enabled == FeatureStateOf(featureKey, featureStatesList)
  {
    for i := 0 to |featureStatesList|
      invariant FeatureStateOf(featureKey, featureStatesList[i..]) == FeatureStateOf(featureKey, featureStatesList)
    {
      var state := featureStatesList[i];
      assert featureStatesList[i..][0] == state;
      assert featureStatesList[i..][1..] == featureStatesList[i + 1..];
      if state.feature.key == featureKey {
        if state.contextType == "workspace" {
          return state.state;
        } else if state.contextType == "organization" {
          return state.state;
        } else if state.contextType == "global" {
          return state.state;
        }
      }
    }
    assert featureStatesList[|featureStatesList|..] == [];
    return false;
  }

  /** The entry written for a feature whose search found `enabled`. */
  function EntryFor(enabled: bool): FlagEntry
  {
    FlagEntry(
      if enabled then Enabled else Disabled,
      Variants(true, false),
      if enabled then On else Off)
  }

  /** The set of keys of a list of features. */
  function KeysOf(features: seq<Feature>): set<string>
  {
    set f | f in features :: f.key
  }

  /**
   * The flags dictionary after writing one entry per feature, in list order, each
   * write replacing whatever an earlier feature with the same key wrote.
   */
  function FlagsAfter(features: seq<Feature>, states: seq<FeatureState>): map<string, FlagEntry>
  {
    if features == [] then map[]
    else
      var last := features[|features| - 1];
      FlagsAfter(features[..|features| - 1], states)[last.key := EntryFor(FeatureStateOf(last.key, states))]
  }

  /**
   * The flags dictionary has exactly the feature keys as keys, and the entry for a key
   * depends on that key alone: on when the search finds true, off otherwise, with
   * the fixed variants.
   */
  lemma {:induction false} FlagsAfterKeyed(features: seq<Feature>, states: seq<FeatureState>)
    ensures FlagsAfter(features, states).Keys == KeysOf(features)
    ensures forall k :: k in FlagsAfter(features, states) ==>
      FlagsAfter(features, states)[k] == EntryFor(FeatureStateOf(k, states))
  {
    if features != [] {
      var init := features[..|features| - 1];
      var last := features[|features| - 1];
      assert features == init + [last];
      FlagsAfterKeyed(init, states);
      assert KeysOf(features) == KeysOf(init) + {last.key};
    }
  }

  /** The status of every emitted flag, its default variant and the search result agree. */
  lemma FlagEntriesAgree(features: seq<Feature>, states: seq<FeatureState>, k: string)
    requires k in KeysOf(features)
    ensures k in FlagsAfter(features, states)
    ensures FlagsAfter(features, states)[k].variants == Variants(true, false)
    ensures FlagsAfter(features, states)[k].state == Enabled <==> FeatureStateOf(k, states)
    ensures FlagsAfter(features, states)[k].defaultVariant == On <==> FeatureStateOf(k, states)
  {
    FlagsAfterKeyed(features, states);
  }

  /** Two feature lists with the same keys give the same flags, whatever their order. */
  lemma SameKeysSameFlags(f1: seq<Feature>, f2: seq<Feature>, states: seq<FeatureState>)
    requires KeysOf(f1) == KeysOf(f2)
    ensures FlagsAfter(f1, states) == FlagsAfter(f2, states)
  {
    FlagsAfterKeyed(f1, states);
    FlagsAfterKeyed(f2, states);
  }

  /** Reordering the features leaves the flags unchanged. */
  lemma PermutedFeaturesSameFlags(f1: seq<Feature>, f2: seq<Feature>, states: seq<FeatureState>)
    requires multiset(f1) == multiset(f2)
    ensures FlagsAfter(f1, states) == FlagsAfter(f2, states)
  {
    assert forall f :: f in f1 <==> f in multiset(f1);
    assert forall f :: f in f2 <==> f in multiset(f2);
    assert KeysOf(f1) == KeysOf(f2);
    SameKeysSameFlags(f1, f2, states);
  }

  /** A feature whose key was already written overwrites its entry with an identical one. */
  lemma RepeatedKeyChangesNothing(features: seq<Feature>, f: Feature, states: seq<FeatureState>)
    requires f.key in KeysOf(features)
    ensures FlagsAfter(features + [f], states) == FlagsAfter(features, states)
  {
    assert (features + [f])[..|features|] == features;
    FlagsAfterKeyed(features, states);
  }

  /** A feature state whose key names no feature neither adds a flag nor changes one. */
  lemma OrphanStateIgnored(
    features: seq<Feature>, before: seq<FeatureState>, s: FeatureState, after: seq<FeatureState>)
    requires s.feature.key !in KeysOf(features)
    ensures FlagsAfter(features, before + [s] + after) == FlagsAfter(features, before + after)
  {
    FlagsAfterKeyed(features, before + [s] + after);
    FlagsAfterKeyed(features, before + after);
    forall k | k in KeysOf(features)
      ensures FeatureStateOf(k, before + [s] + after) == FeatureStateOf(k, before + after)
    {
      UnqualifiedEntryIgnored(k, before, s, after);
    }
  }

  /** Changing only the context ids of the feature states leaves the flags unchanged. */
  lemma ContextIdsDoNotAffectFlags(features: seq<Feature>, a: seq<FeatureState>, b: seq<FeatureState>)
    requires DifferOnlyInContextIds(a, b)
    ensures FlagsAfter(features, a) == FlagsAfter(features, b)
  {
    FlagsAfterKeyed(features, a);
    FlagsAfterKeyed(features, b);
    forall k | k in KeysOf(features)
      ensures FeatureStateOf(k, a) == FeatureStateOf(k, b)
    {
      ContextIdIrrelevant(k, a, b);
    }
  }

  /** The one key whose assignment on a plain JavaScript object creates no own property. */
  const ProtoKey: string := "__proto__"

  /**
   * Assignment `obj[k] = v` on a plain object, as JSON serialisation sees the result:
   * the key "__proto__" reaches the inherited prototype setter, which replaces the
   * object's prototype and leaves its own properties as they were.
   */
  function ObjectAssign(m: map<string, FlagEntry>, k: string, v: FlagEntry): map<string, FlagEntry>
  {
    if k == ProtoKey then m else m[k := v]
  }

  /**
   * The flags object as the source's write loop leaves it, with `flags` a plain
   * object literal: the same writes as `FlagsAfter`, each through `ObjectAssign`.
   */
  function FlagsAfterAsWritten(features: seq<Feature>, states: seq<FeatureState>): map<string, FlagEntry>
  {
    if features == [] then map[]
    else
      var last := features[|features| - 1];
      ObjectAssign(FlagsAfterAsWritten(features[..|features| - 1], states),
        last.key, EntryFor(FeatureStateOf(last.key, states)))
  }

  /**
   * The plain-object loop produces the intended dictionary without the key
   * "__proto__" and agrees with it on every other key.
   */
  lemma {:induction false} AsWrittenDropsOnlyProtoKey(features: seq<Feature>, states: seq<FeatureState>)
    ensures FlagsAfterAsWritten(features, states) == FlagsAfter(features, states) - {ProtoKey}
  {
    if features != [] {
      var init := features[..|features| - 1];
      AsWrittenDropsOnlyProtoKey(init, states);
    }
  }

  /** A feature keyed "__proto__" gets no flag from the source's loop, while the intended dictionary has one. */
  lemma ProtoKeyDropped()
    ensures var features := [Feature("ftr_p", ProtoKey, "Proto", None)];
      ProtoKey in KeysOf(features)
      && FlagsAfterAsWritten(features, []) == map[]
      && ProtoKey in FlagsAfter(features, [])
  {
    var features := [Feature("ftr_p", ProtoKey, "Proto", None)];
    assert features[0] in features;
    assert features[..0] == [];
  }

  /**
   * The builder: start from the schema URL and an empty flags dictionary, then
   * write one entry per feature, keyed by the feature's key.
   */
  method GenerateFlagdConfig(featuresList: seq<Feature>, featureStatesList: seq<FeatureState>)
    returns (config: Config)
    ensures config.schema == SchemaUrl
    ensures config.flags == FlagsAfter(featuresList, featureStatesList)
    ensures config.flags.Keys == KeysOf(featuresList)
    ensures forall k :: k in config.flags ==>
      config.flags[k].variants == Variants(true, false)
      && (config.flags[k].state == Enabled <==> FeatureStateOf(k, featureStatesList))
      && (config.flags[k].defaultVariant == On <==> FeatureStateOf(k, featureStatesList))
  {
    config := Config(SchemaUrl, map[]);
    for i := 0 to |featuresList|
      invariant config.schema == SchemaUrl
      invariant config.flags == FlagsAfter(featuresList[..i], featureStatesList)
    {
      var feature := featuresList[i];
      var state := GetFeatureState(feature.key, featureStatesList);
      config := config.(flags := config.flags[feature.key := EntryFor(state)]);
      assert featuresList[..i + 1][..i] == featuresList[..i];
    }
    assert featuresList[..|featuresList|] == featuresList;
    FlagsAfterKeyed(featuresList, featureStatesList);
  }
}
