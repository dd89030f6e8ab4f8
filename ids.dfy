/**
 * Prefixed, randomly generated identifiers of the flag service.
 *
 * Every stored entity gets an identifier made of a three-letter prefix naming the
 * entity kind, a separator and a random alphanumeric suffix. A validator for each
 * kind accepts exactly the strings that start with that kind's prefix.
 *
 * The random suffix is produced by a foreign generator; here it is a parameter,
 * and what the generator guarantees about it (its length and its alphabet) is a
 * precondition.
 */
module Ids {
  import opened Optional

  /** The entity kinds that have an identifier prefix. */
  datatype Entity = Feature | FeatureState

  /** The prefix table: one three-letter prefix per entity kind. */
  function Prefix(e: Entity): (p: string)
    ensures |p| == 3
  {
    match e
    case Feature => "ftr"
    case FeatureState => "fst"
  }

  /** Distinct entity kinds never share a prefix. */
  lemma PrefixInjective(e1: Entity, e2: Entity)
    requires Prefix(e1) == Prefix(e2)
    ensures e1 == e2
  {
  }

  /** Whether `s` starts with `p`, as JavaScript's `startsWith` decides it. */
  predicate StartsWith(s: string, p: string)
  {
    |p| <= |s| && s[..|p|] == p
  }

  /** An untyped value handed to a validator: either a string or anything else. */
  datatype Unknown = Text(s: string) | NotText

  /** The validator built for a prefix: it accepts a string that starts with the prefix, and nothing else. */
  predicate IdSchema(prefix: string, val: Unknown)
    ensures IdSchema(prefix, val) <==>
      val.Text? && |prefix| <= |val.s| && forall i :: 0 <= i < |prefix| ==> val.s[i] == prefix[i]
  {
    val.Text? && StartsWith(val.s, prefix)
  }

  /** The validator for feature identifiers. */
  predicate IsFeatureId(val: Unknown)
    ensures IsFeatureId(val) <==>
      val.Text? && |val.s| >= 3 && val.s[0] == 'f' && val.s[1] == 't' && val.s[2] == 'r'
  {
    IdSchema(Prefix(Feature), val)
  }

  /** The validator for feature-state identifiers. */
  predicate IsFeatureStateId(val: Unknown)
    ensures IsFeatureStateId(val) <==>
      val.Text? && |val.s| >= 3 && val.s[0] == 'f' && val.s[1] == 's' && val.s[2] == 't'
  {
    IdSchema(Prefix(FeatureState), val)
  }

  /** The validator accepts a value exactly when it is the prefix followed by some string. */
  lemma IdSchemaAcceptsExactlyPrefixed(prefix: string, val: Unknown)
    ensures IdSchema(prefix, val) <==> exists rest :: val == Text(prefix + rest)
  {
    if IdSchema(prefix, val) {
      var rest := val.s[|prefix|..];
      assert val.s == prefix + rest;
      assert val == Text(prefix + rest);
    }
    if exists rest :: val == Text(prefix + rest) {
      var rest :| val == Text(prefix + rest);
      assert val.s[..|prefix|] == prefix;
    }
  }

  /** Two prefixes of equal length that differ cannot both be accepted for one value. */
  lemma EqualLengthPrefixesExclusive(p: string, q: string, val: Unknown)
    requires |p| == |q| && p != q
    ensures !(IdSchema(p, val) && IdSchema(q, val))
  {
  }

  /** No value is both a feature identifier and a feature-state identifier. */
  lemma FeatureAndFeatureStateIdsDisjoint(val: Unknown)
    ensures !(IsFeatureId(val) && IsFeatureStateId(val))
  {
    EqualLengthPrefixesExclusive(Prefix(Feature), Prefix(FeatureState), val);
  }

  /** The `n` consecutive characters starting at `lo`. */
  function CharRange(lo: char, n: nat): (r: string)
    requires lo as int + n <= 0xD800
    ensures |r| == n
    ensures forall i :: 0 <= i < n ==> r[i] as int == lo as int + i
  {
    seq(n, i requires 0 <= i < n => (lo as int + i) as char)
  }

  /** The 62 characters the random suffix is drawn from: the digits, then "A" to "Z", then "a" to "z". */
  const Alphabet: string := CharRange('0', 10) + CharRange('A', 26) + CharRange('a', 26)

  predicate IsAlphanumeric(c: char)
  {
    '0' <= c <= '9' || 'A' <= c <= 'Z' || 'a' <= c <= 'z'
  }

  /** The alphabet has 62 characters and holds exactly the ASCII letters and digits. */
  lemma AlphabetIsAlphanumeric(c: char)
    ensures |Alphabet| == 62
    ensures c in Alphabet <==> IsAlphanumeric(c)
  {
    if IsAlphanumeric(c) {
      if c <= '9' {
        assert Alphabet[c as int - '0' as int] == c;
      } else if c <= 'Z' {
        assert Alphabet[10 + c as int - 'A' as int] == c;
      } else {
        assert Alphabet[36 + c as int - 'a' as int] == c;
      }
    }
  }

  const DefaultLength: nat := 12
  const DefaultSeparator: string := "_"

  /** The generator's options; a field left undefined takes its default. */
  datatype IdOptions = IdOptions(length: Option<nat>, separator: Option<string>)

  /** No options given at all. */
  const NoOptions: IdOptions := IdOptions(None, None)

  function LengthOf(o: IdOptions): nat
  {
    if o.length.Some? then o.length.value else DefaultLength
  }

  function SeparatorOf(o: IdOptions): string
  {
    if o.separator.Some? then o.separator.value else DefaultSeparator
  }

  /** What the random generator guarantees of the suffix it returns for options `o`. */
  predicate ValidSuffix(o: IdOptions, suffix: string)
  {
    |suffix| == LengthOf(o) && forall i :: 0 <= i < |suffix| ==> suffix[i] in Alphabet
  }

  /**
   * The identifier for entity kind `e`: prefix, separator, then the random suffix.
   * The result is laid out as the prefix, the separator and `LengthOf(o)` alphabet
   * characters, in that order.
   */
  function GenerateId(e: Entity, o: IdOptions, suffix: string): (id: string)
    requires ValidSuffix(o, suffix)
    ensures |id| == 3 + |SeparatorOf(o)| + LengthOf(o)
    ensures id[..3] == Prefix(e)
    ensures id[3..3 + |SeparatorOf(o)|] == SeparatorOf(o)
    ensures forall i :: 3 + |SeparatorOf(o)| <= i < |id| ==> id[i] in Alphabet
  {
    Prefix(e) + SeparatorOf(o) + suffix
  }

  /** Every generated identifier passes the validator of its own entity kind. */
  lemma GeneratedIdPassesOwnSchema(e: Entity, o: IdOptions, suffix: string)
    requires ValidSuffix(o, suffix)
    ensures IdSchema(Prefix(e), Text(GenerateId(e, o, suffix)))
  {
  }

  /** A generated feature identifier is a feature identifier and not a feature-state identifier. */
  lemma GeneratedFeatureIdIsFeatureId(o: IdOptions, suffix: string)
    requires ValidSuffix(o, suffix)
    ensures IsFeatureId(Text(GenerateId(Feature, o, suffix)))
    ensures !IsFeatureStateId(Text(GenerateId(Feature, o, suffix)))
  {
    GeneratedIdPassesOwnSchema(Feature, o, suffix);
    FeatureAndFeatureStateIdsDisjoint(Text(GenerateId(Feature, o, suffix)));
  }

  /** A generated feature-state identifier is a feature-state identifier and not a feature identifier. */
  lemma GeneratedFeatureStateIdIsFeatureStateId(o: IdOptions, suffix: string)
    requires ValidSuffix(o, suffix)
    ensures IsFeatureStateId(Text(GenerateId(FeatureState, o, suffix)))
    ensures !IsFeatureId(Text(GenerateId(FeatureState, o, suffix)))
  {
    GeneratedIdPassesOwnSchema(FeatureState, o, suffix);
    FeatureAndFeatureStateIdsDisjoint(Text(GenerateId(FeatureState, o, suffix)));
  }

  /** With no options, an identifier is the prefix, "_" and twelve alphabet characters. */
  lemma DefaultIdShape(e: Entity, suffix: string)
    requires ValidSuffix(NoOptions, suffix)
    ensures |GenerateId(e, NoOptions, suffix)| == 16
    ensures GenerateId(e, NoOptions, suffix)[3] == '_'
    ensures GenerateId(e, NoOptions, suffix)[4..] == suffix
  {
    var id := GenerateId(e, NoOptions, suffix);
    assert id[3..4] == "_";
  }

  /**
   * Generation loses nothing: the entity kind, the separator and the suffix can be
   * recovered from the identifier, so identifiers of one kind and options differ
   * exactly when their suffixes do.
   */
  lemma GenerateIdInjective(e1: Entity, e2: Entity, o: IdOptions, s1: string, s2: string)
    requires ValidSuffix(o, s1) && ValidSuffix(o, s2)
    requires GenerateId(e1, o, s1) == GenerateId(e2, o, s2)
    ensures e1 == e2 && s1 == s2
  {
    var id := GenerateId(e1, o, s1);
    var n := 3 + |SeparatorOf(o)|;
    PrefixInjective(e1, e2);
    assert id[n..] == s1;
    assert GenerateId(e2, o, s2)[n..] == s2;
  }

  /** The documented example: a feature with suffix "abc123def456" gets "ftr_abc123def456". */
  lemma DefaultFeatureIdExample()
    ensures ValidSuffix(NoOptions, "abc123def456")
      && GenerateId(Feature, NoOptions, "abc123def456") == "ftr_abc123def456"
  {
    var suffix := "abc123def456";
    forall i | 0 <= i < |suffix|
      ensures suffix[i] in Alphabet
    {
      AlphabetIsAlphanumeric(suffix[i]);
    }
  }
}
