/** `EnumExtensions.EqualsForType`: whether a country archetype and a state
    archetype carry the same name. */
module EnumExtensions {
  import opened Archetypes

  function EqualsForType(c: CountryType, s: StateType): (r: bool)
    ensures r <==> c == ToCountryType(s)
  {
    (c == CountryBalanced && s == Balanced)
    || (c == CountryResource && s == Resource)
    || (c == CountryIndustrial && s == Industrial)
  }

  /** For every state archetype exactly one country archetype matches it. */
  lemma ExactlyOneMatch(s: StateType)
    ensures exists c :: EqualsForType(c, s)
    ensures forall c, d :: EqualsForType(c, s) && EqualsForType(d, s) ==> c == d
  {
    assert EqualsForType(ToCountryType(s), s);
  }

  /** The member names `ToString` gives a state archetype. */
  function StateTypeName(s: StateType): string {
    match s
    case Industrial => "Industrial"
    case Resource => "Resource"
    case Balanced => "Balanced"
  }

  /** The member names `ToString` gives a country archetype. */
  function CountryTypeName(c: CountryType): string {
    match c
    case CountryIndustrial => "Industrial"
    case CountryResource => "Resource"
    case CountryBalanced => "Balanced"
  }

  /** `EqualsForType` agrees with comparing the two archetypes' names, the
      test the legacy type match uses. */
  lemma MatchIffSameName(c: CountryType, s: StateType)
    ensures EqualsForType(c, s) <==> CountryTypeName(c) == StateTypeName(s)
  {
    assert "Industrial"[0] != "Resource"[0] && "Industrial"[0] != "Balanced"[0] && "Resource"[0] != "Balanced"[0];
  }
}
