/** The city alias resolver (`map_city_name`): a constant many-to-one table
    from lower-case city names to the warehouse city that serves them. */
module Cities {
  import opened Keys

  /** The alias table as the dictionary literal lists it, in order, including
      its repeated "surat" entry. */
  const CityAliases: seq<(string, string)> := [
    ("surat", "ahmedabad"),
    ("ahmedabad", "ahmedabad"),
    ("surat", "ahmedabad"),
    ("bengaluru", "bangalore"),
    ("chennai", "chennai"),
    ("coimbatore", "coimbatore"),
    ("bhubaneswar", "cuttack"),
    ("dasna", "delhi"),
    ("farukhnagar", "delhi"),
    ("kundli", "delhi"),
    ("noida", "ghaziabad"),
    ("bhopal", "ghaziabad"),
    ("jaipur", "ghaziabad"),
    ("guwahati", "guwahati"),
    ("hyderabad", "hyderabad"),
    ("kolkata", "kolkata"),
    ("lucknow", "lucknow"),
    ("ludhiana", "lucknow"),
    ("varanasi", "lucknow"),
    ("mumbai", "mumbai"),
    ("pune", "pune"),
    ("goa", "pune"),
    ("indore", "pune"),
    ("nagpur", "pune"),
    ("patna", "ranchi"),
    ("ranchi", "ranchi"),
    ("visakhapatnam", "vijayawada"),
    ("dehradun", "zirakpur"),
    ("rajpura", "zirakpur")
  ]

  /** The dictionary the literal builds; a repeated key keeps the value of
      its last occurrence. */
  const CityMap: map<string, string> :=
    map[
      "surat" := "ahmedabad",
      "ahmedabad" := "ahmedabad",
      "surat" := "ahmedabad",
      "bengaluru" := "bangalore",
      "chennai" := "chennai",
      "coimbatore" := "coimbatore",
      "bhubaneswar" := "cuttack",
      "dasna" := "delhi",
      "farukhnagar" := "delhi",
      "kundli" := "delhi",
      "noida" := "ghaziabad",
      "bhopal" := "ghaziabad",
      "jaipur" := "ghaziabad",
      "guwahati" := "guwahati",
      "hyderabad" := "hyderabad",
      "kolkata" := "kolkata",
      "lucknow" := "lucknow",
      "ludhiana" := "lucknow",
      "varanasi" := "lucknow",
      "mumbai" := "mumbai",
      "pune" := "pune",
      "goa" := "pune",
      "indore" := "pune",
      "nagpur" := "pune",
      "patna" := "ranchi",
      "ranchi" := "ranchi",
      "visakhapatnam" := "vijayawada",
      "dehradun" := "zirakpur",
      "rajpura" := "zirakpur"
    ]

  /** A canonical city name: already stripped and lower-case, so resolving
      it again finds it as it is. */
  predicate Canonical(s: string)
  {
    Trimmed(s) && Lower(s) == s
  }

  /** A lookup table whose targets are canonical and resolve to themselves. */
  predicate ClosedTable(m: map<string, string>)
  {
    forall k :: k in m ==> Canonical(m[k]) && (m[k] !in m || m[m[k]] == m[k])
  }

  /** The lookup `map_city_name` performs, for a given table: a missing city
      is returned as it is; otherwise the stripped text is looked up
      lower-cased, and an unknown name comes back stripped with its own case. */
  function Resolve(m: map<string, string>, city: Value): (r: Value)
    ensures city.Missing? ==> r == city
    ensures !city.Missing? ==> r.Str? && (r.s in m.Values || r.s == Trim(PyStr(city)))
  {
    if city.Missing? then city
    else
      var t := Trim(PyStr(city));
      var k := Lower(t);
      Str(if k in m then m[k] else t)
  }

  /** `map_city_name`. */
  function MapCityName(city: Value): Value
  {
    Resolve(CityMap, city)
  }

  /** The entries from `lo` up to `hi` are what the dictionary holds. */
  predicate AgreeFrom(lo: nat, hi: nat)
    requires lo <= hi <= |CityAliases|
  {
    forall i :: lo <= i < hi ==> CityAliases[i].0 in CityMap && CityMap[CityAliases[i].0] == CityAliases[i].1
  }

  /** Every entry of the literal, the repeated "surat" included, is what the
      dictionary holds: the table is consistent. */
  lemma AliasesAgree()
    ensures forall i :: 0 <= i < |CityAliases| ==>
      CityAliases[i].0 in CityMap && CityMap[CityAliases[i].0] == CityAliases[i].1
  {
    AliasesAgree1();
    AliasesAgree2();
    AliasesAgree3();
    AliasesAgree4();
    AliasesAgree5();
    AliasesAgree6();
    assert AgreeFrom(0, 4) && AgreeFrom(4, 8) && AgreeFrom(8, 12) && AgreeFrom(12, 16) && AgreeFrom(16, 21) && AgreeFrom(21, 29);
  }

  lemma AliasesAgree1()
    ensures AgreeFrom(0, 4)
  {
  }

  lemma AliasesAgree2()
    ensures AgreeFrom(4, 8)
  {
  }

  lemma AliasesAgree3()
    ensures AgreeFrom(8, 12)
  {
  }

  lemma AliasesAgree4()
    ensures AgreeFrom(12, 16)
  {
  }

  lemma AliasesAgree5()
    ensures AgreeFrom(16, 21)
  {
  }

  lemma AliasesAgree6()
    ensures AgreeFrom(21, 29)
  {
  }

  /** Every target is a canonical name that maps to itself or is not a key. */
  lemma CityMapClosed()
    ensures ClosedTable(CityMap)
  {
    TargetsCanonical();
    TargetsFixed();
  }

  lemma TargetsCanonical()
    ensures forall k :: k in CityMap ==> Canonical(CityMap[k])
  {
    TargetNamesCanonical1();
    TargetNamesCanonical2();
  }

  lemma TargetsFixed()
    ensures forall k :: k in CityMap ==> CityMap[k] !in CityMap || CityMap[CityMap[k]] == CityMap[k]
  {
  }

  lemma TargetNamesCanonical1()
    ensures Canonical("ahmedabad")
    ensures Canonical("bangalore")
    ensures Canonical("chennai")
    ensures Canonical("coimbatore")
    ensures Canonical("cuttack")
    ensures Canonical("delhi")
    ensures Canonical("ghaziabad")
    ensures Canonical("guwahati")
  {
  }

  lemma TargetNamesCanonical2()
    ensures Canonical("hyderabad")
    ensures Canonical("kolkata")
    ensures Canonical("lucknow")
    ensures Canonical("mumbai")
    ensures Canonical("pune")
    ensures Canonical("ranchi")
    ensures Canonical("vijayawada")
    ensures Canonical("zirakpur")
  {
  }

  /** Resolving a text that stripping leaves as it is. */
  lemma ResolveTrimmed(m: map<string, string>, s: string)
    requires Trim(s) == s
    ensures Resolve(m, Str(s)) == Str(if Lower(s) in m then m[Lower(s)] else s)
  {
  }

  /** Over a closed table, resolving a resolved city changes nothing. */
  lemma ResolveIdempotent(m: map<string, string>, city: Value)
    requires ClosedTable(m)
    ensures Resolve(m, Resolve(m, city)) == Resolve(m, city)
  {
    if !city.Missing? {
      var t := Trim(PyStr(city));
      var k := Lower(t);
      if k in m {
        assert Resolve(m, city) == Str(m[k]);
        TrimOfTrimmed(m[k]);
        ResolveTrimmed(m, m[k]);
      } else {
        assert Resolve(m, city) == Str(t);
        TrimOfTrimmed(t);
        ResolveTrimmed(m, t);
      }
    }
  }

  /** Applying `map_city_name` twice equals applying it once. */
  lemma MapCityIdempotent(city: Value)
    ensures MapCityName(MapCityName(city)) == MapCityName(city)
  {
    CityMapClosed();
    ResolveIdempotent(CityMap, city);
  }

  /** A text whose stripped, lower-cased form is a key resolves to that
      key's target. */
  lemma ResolveKnown(m: map<string, string>, s: string)
    requires Lower(Trim(s)) in m
    ensures Resolve(m, Str(s)) == Str(m[Lower(Trim(s))])
  {
  }

  lemma NoidaEntry()
    ensures "noida" in CityMap && CityMap["noida"] == "ghaziabad"
  {
  }

  /** Any text whose stripped, lower-cased form is "noida" resolves to "ghaziabad". */
  lemma ResolvesNoida(s: string)
    requires Lower(Trim(s)) == "noida"
    ensures MapCityName(Str(s)) == Str("ghaziabad")
  {
    NoidaEntry();
    ResolveKnown(CityMap, s);
  }

  /** "NOIDA" resolves to "ghaziabad", as "noida" does. */
  lemma NoidaExample()
    ensures MapCityName(Str("NOIDA")) == Str("ghaziabad")
  {
    UpperNoida();
    ResolvesNoida("NOIDA");
  }

  lemma UpperNoida()
    ensures Lower(Trim("NOIDA")) == "noida"
  {
    TrimOfTrimmed("NOIDA");
    assert Lower("NOIDA") == "noida";
  }

  lemma LowerTrimmed(t: string)
    requires Trimmed(t)
    ensures Trimmed(Lower(t)) && Lower(Lower(t)) == Lower(t)
  {
  }

  /** A known city is found whatever its case and surrounding whitespace:
      the text resolves as its stripped, lower-cased key does. */
  lemma KnownCityInsensitive(s: string)
    requires Lower(Trim(s)) in CityMap
    ensures MapCityName(Str(s)) == MapCityName(Str(Lower(Trim(s))))
    ensures MapCityName(Str(s)) == Str(CityMap[Lower(Trim(s))])
  {
    var k := Lower(Trim(s));
    ResolveKnown(CityMap, s);
    LowerTrimmed(Trim(s));
    TrimOfTrimmed(k);
    ResolveTrimmed(CityMap, k);
  }

  /** A text whose stripped, lower-cased form is not a key comes back
      stripped. */
  lemma ResolveUnknown(m: map<string, string>, s: string)
    requires Lower(Trim(s)) !in m
    ensures Resolve(m, Str(s)) == Str(Trim(s))
  {
  }

  /** An unknown city comes back trimmed, with its own case. */
  lemma UnknownCityExample()
    ensures MapCityName(Str("Unknown City ")) == Str("Unknown City")
  {
    TrimUnknown();
    LowerUnknown();
    UnknownAbsent();
    ResolveUnknown(CityMap, "Unknown City ");
  }

  lemma TrimUnknown()
    ensures Trim("Unknown City ") == "Unknown City"
  {
    var s := "Unknown City ";
    assert TrimLeft(s) == s by {
      assert !IsSpace(s[0]);
    }
    assert TrimRight(s) == TrimRight(s[..12]) by {
      assert IsSpace(s[12]);
    }
    assert s[..12] == "Unknown City";
    assert TrimRight("Unknown City") == "Unknown City" by {
      assert !IsSpace("Unknown City"[11]);
    }
  }

  lemma LowerUnknown()
    ensures Lower("Unknown City") == "unknown city"
  {
  }

  lemma UnknownAbsent()
    ensures "unknown city" !in CityMap
  {
  }
}
