/** Choosing the language of place names (services/geoip/src/geoip.rs). */
module GeoNames {
  import opened Wrappers
  import opened Locales

  datatype GeoError = NotFound | BadLang | Internal

  type Names = Option<map<string, string>>

  predicate Matches(names: map<string, string>, l: Locale) {
    FullName(l) in names || l.name in names
  }

  ghost predicate FirstMatch(names: map<string, string>, locales: seq<Locale>, i: nat) {
    i < |locales| && Matches(names, locales[i]) && forall j :: 0 <= j < i ==> !Matches(names, locales[j])
  }

  // ---- The preferred locale, without sorting ----

  /** Of the locales that match, the leftmost of highest quality. */
  function BestMatch(names: map<string, string>, ls: seq<Locale>): Option<Locale> {
    if ls == [] then None
    else
      match BestMatch(names, ls[1..])
      case None => if Matches(names, ls[0]) then Some(ls[0]) else None
      case Some(b) => if Matches(names, ls[0]) && ls[0].q >= b.q then Some(ls[0]) else Some(b)
  }

  ghost predicate MostPreferred(names: map<string, string>, ls: seq<Locale>, i: nat) {
    && i < |ls| && Matches(names, ls[i])
    && (forall j :: 0 <= j < |ls| && Matches(names, ls[j]) ==> ls[j].q <= ls[i].q)
    && (forall j :: 0 <= j < i && Matches(names, ls[j]) ==> ls[j].q < ls[i].q)
  }

  lemma {:induction false} BestMatchSpec(names: map<string, string>, ls: seq<Locale>)
    ensures BestMatch(names, ls) == None <==> forall l :: l in ls ==> !Matches(names, l)
    ensures BestMatch(names, ls).Some? ==>
      exists i: nat :: MostPreferred(names, ls, i) && ls[i] == BestMatch(names, ls).value
  {
    if ls != [] {
      var tail := ls[1..];
      BestMatchSpec(names, tail);
      assert forall j :: 0 < j < |ls| ==> ls[j] == tail[j - 1];
      if BestMatch(names, tail).Some? {
        var i: nat :| MostPreferred(names, tail, i) && tail[i] == BestMatch(names, tail).value;
        assert MostPreferred(names, ls, if Matches(names, ls[0]) && ls[0].q >= tail[i].q then 0 else i + 1);
      } else {
        assert forall l :: l in ls ==> l == ls[0] || l in tail;
        assert Matches(names, ls[0]) ==> MostPreferred(names, ls, 0);
      }
    }
  }

  function FirstOf(names: map<string, string>, ls: seq<Locale>): Option<Locale> {
    if ls == [] then None else if Matches(names, ls[0]) then Some(ls[0]) else FirstOf(names, ls[1..])
  }

  lemma {:induction false} FirstOfIsFirstMatch(names: map<string, string>, ls: seq<Locale>, i: nat)
    requires FirstMatch(names, ls, i)
    ensures FirstOf(names, ls) == Some(ls[i])
  {
    if !Matches(names, ls[0]) {
      assert forall j :: 0 <= j < i - 1 ==> ls[1..][j] == ls[j + 1];
      FirstOfIsFirstMatch(names, ls[1..], i - 1);
    }
  }

  lemma {:induction false} FirstOfBelowHead(names: map<string, string>, ls: seq<Locale>)
    requires Descending(ls) && ls != [] && FirstOf(names, ls).Some?
    ensures FirstOf(names, ls).value.q <= ls[0].q
  {
    if !Matches(names, ls[0]) {
      FirstOfBelowHead(names, ls[1..]);
    }
  }

  lemma {:induction false} FirstOfInsert(names: map<string, string>, l: Locale, ls: seq<Locale>)
    requires Descending(ls)
    ensures FirstOf(names, Insert(l, ls)) ==
      match FirstOf(names, ls)
      case None => if Matches(names, l) then Some(l) else None
      case Some(b) => if Matches(names, l) && l.q >= b.q then Some(l) else Some(b)
  {
    if ls == [] || l.q >= ls[0].q {
      assert ([l] + ls)[1..] == ls;
      if FirstOf(names, ls).Some? {
        FirstOfBelowHead(names, ls);
      }
    } else {
      assert ([ls[0]] + Insert(l, ls[1..]))[1..] == Insert(l, ls[1..]);
      FirstOfInsert(names, l, ls[1..]);
    }
  }

  /** Sorting by quality and taking the first match gives the preferred locale of the unsorted list. */
  lemma {:induction false} FirstOfSortedIsBest(names: map<string, string>, ls: seq<Locale>)
    ensures FirstOf(names, FromIter(ls)) == BestMatch(names, ls)
  {
    if ls != [] {
      FirstOfSortedIsBest(names, ls[1..]);
      FromIterSorts(ls[1..]);
      FirstOfInsert(names, ls[0], FromIter(ls[1..]));
    }
  }

  /** So a name found by search is the one of the most preferred locale that has any. */
  lemma FoundIsPreferred(names: map<string, string>, ls: seq<Locale>, i: nat)
    requires FirstMatch(names, FromIter(ls), i)
    ensures BestMatch(names, ls) == Some(FromIter(ls)[i])
  {
    FirstOfIsFirstMatch(names, FromIter(ls), i);
    FirstOfSortedIsBest(names, ls);
  }

  // ---- The search ----

  /** The place has a name in the remembered language or in one the locales accept. */
  ghost predicate Nameable(names: Names, cache: string, locales: seq<Locale>) {
    && names.Some?
    && ((cache != "" && cache in names.value)
        || exists i :: 0 <= i < |locales| && Matches(names.value, locales[i]))
  }

  /**
   The name to give, and its language: the remembered language if there is a name in it, else
   that of the first locale with a name, the full tag before the bare language.
   */
  ghost predicate Named(names: Names, cache: string, locales: seq<Locale>, name: string, language: string) {
    && names.Some? && language in names.value && name == names.value[language]
    && if cache != "" && cache in names.value then language == cache
       else exists i: nat ::
         && FirstMatch(names.value, locales, i)
         && language == if FullName(locales[i]) in names.value then FullName(locales[i]) else locales[i].name
  }

  ghost predicate NamedSomehow(names: Names, cache: string, locales: seq<Locale>, name: string) {
    exists language :: Named(names, cache, locales, name, language)
  }

  lemma FirstMatchUnique(names: map<string, string>, locales: seq<Locale>, i: nat, j: nat)
    requires FirstMatch(names, locales, i) && FirstMatch(names, locales, j)
    ensures i == j
  {
  }

  /** There is only one such name and language. */
  lemma NamedUnique(names: Names, cache: string, locales: seq<Locale>, x: string, a: string, y: string, b: string)
    requires Named(names, cache, locales, x, a) && Named(names, cache, locales, y, b)
    ensures x == y && a == b
  {
    if !(cache != "" && cache in names.value) {
      var m := names.value;
      var i: nat :|
        FirstMatch(m, locales, i) && a == if FullName(locales[i]) in m then FullName(locales[i]) else locales[i].name;
      var j: nat :|
        FirstMatch(m, locales, j) && b == if FullName(locales[j]) in m then FullName(locales[j]) else locales[j].name;
      FirstMatchUnique(m, locales, i, j);
    }
  }

  method GetI18nName(names: Names, cache: string, locales: seq<Locale>) returns (r: Result<(string, string), GeoError>)
    ensures r.Ok? ==> Named(names, cache, locales, r.value.0, r.value.1)
    ensures r == Err(Internal) <==> names.None?
    ensures r == Err(BadLang) <==>
      && names.Some? && !(cache != "" && cache in names.value)
      && forall i :: 0 <= i < |locales| ==> FullName(locales[i]) !in names.value && locales[i].name !in names.value
    ensures r.Ok? <==> Nameable(names, cache, locales)
    ensures r.Err? ==> r.error == Internal || r.error == BadLang
  {
    match names {
      case None => return Err(Internal);
      case Some(table) =>
        if cache != "" {
          if cache in table {
            return Ok((table[cache], cache));
          }
        }
        for i := 0 to |locales|
          invariant forall j :: 0 <= j < i ==> !Matches(table, locales[j])
        {
          var key := FullName(locales[i]);
          if key in table {
            assert FirstMatch(table, locales, i);
            return Ok((table[key], key));
          }
          if locales[i].name in table {
            assert FirstMatch(table, locales, i);
            return Ok((table[locales[i].name], locales[i].name));
          }
        }
        return Err(BadLang);
    }
  }

  /** The names a database record holds: country, city and subdivisions. */
  datatype Place = Place(country: Option<Names>, city: Option<Names>, subdivisions: Option<seq<Names>>)

  datatype GeoLoc = GeoLoc(
    locale: string,
    country: Option<string>,
    city: Option<string>,
    subdivisions: Option<seq<string>>)

  /** The names of all subdivisions, or none at all if one of them has no acceptable name. */
  method NameAll(subs: seq<Names>, language: string, locales: seq<Locale>) returns (r: Option<seq<string>>)
    ensures r.Some? <==> forall i :: 0 <= i < |subs| ==> Nameable(subs[i], language, locales)
    ensures r.Some? ==>
      |r.value| == |subs| && forall i :: 0 <= i < |subs| ==> NamedSomehow(subs[i], language, locales, r.value[i])
  {
    var texts: seq<string> := [];
    for i := 0 to |subs|
      invariant |texts| == i
      invariant forall j :: 0 <= j < i ==> Nameable(subs[j], language, locales)
      invariant forall j :: 0 <= j < i ==> NamedSomehow(subs[j], language, locales, texts[j])
    {
      var named := GetI18nName(subs[i], language, locales);
      if named.Err? {
        return None;
      }
      texts := texts + [named.value.0];
    }
    return Some(texts);
  }

  /**
   The answer for a place: the country is named first, in language a, then the city, in
   language b, by preference in the country's language; what they leave as the language of the
   answer is preferred for the subdivisions, which are named all or not at all.
   */
  ghost predicate Answers(place: Place, locales: seq<Locale>, g: GeoLoc, a: string, b: string) {
    && (match place.country
        case Some(names) => g.country.Some? && Named(names, "", locales, g.country.value, a)
        case None => g.country.None? && a == "")
    && (match place.city
        case Some(names) => g.city.Some? && Named(names, a, locales, g.city.value, b)
        case None => g.city.None? && b == "")
    && g.locale == (if a != "" then a else b)
    && (match place.subdivisions
        case Some(subs) =>
          && (g.subdivisions.Some? <==> forall i :: 0 <= i < |subs| ==> Nameable(subs[i], g.locale, locales))
          && (g.subdivisions.Some? ==>
                && |g.subdivisions.value| == |subs|
                && forall i :: 0 <= i < |subs| ==> NamedSomehow(subs[i], g.locale, locales, g.subdivisions.value[i]))
        case None => g.subdivisions.None?)
  }

  /** The language the country leaves behind for the city. */
  ghost predicate CityLanguage(place: Place, locales: seq<Locale>, language: string) {
    match place.country
    case Some(names) => exists name :: Named(names, "", locales, name, language)
    case None => language == ""
  }

  /** Country and city, where the record has them, can be named one after the other. */
  ghost predicate Answerable(place: Place, locales: seq<Locale>) {
    && (place.country.Some? ==> Nameable(place.country.value, "", locales))
    && (place.city.Some? ==>
          exists language :: CityLanguage(place, locales, language) && Nameable(place.city.value, language, locales))
  }

  /** There is only one language the country can choose. */
  lemma CityLanguageUnique(place: Place, locales: seq<Locale>, a: string, b: string)
    requires CityLanguage(place, locales, a) && CityLanguage(place, locales, b)
    ensures a == b
  {
    if place.country.Some? {
      var x :| Named(place.country.value, "", locales, x, a);
      var y :| Named(place.country.value, "", locales, y, b);
      NamedUnique(place.country.value, "", locales, x, a, y, b);
    }
  }

  /** Succeeds exactly when country and city can be named, and then with the one answer there is. */
  method Lookup(place: Place, locales: seq<Locale>) returns (r: Result<GeoLoc, GeoError>)
    ensures r.Ok? <==> Answerable(place, locales)
    ensures r.Ok? ==> exists a, b :: Answers(place, locales, r.value, a, b)
    ensures r.Err? ==>
      var countryFails := place.country.Some? && !Nameable(place.country.value, "", locales);
      var failing := if countryFails then place.country else place.city;
      failing.Some? && r.error == if failing.value.None? then Internal else BadLang
  {
    var result := GeoLoc("", None, None, None);
    ghost var a, b := "", "";
    if place.country.Some? {
      var named := GetI18nName(place.country.value, result.locale, locales);
      if named.Err? {
        return Err(named.error);
      }
      result := result.(country := Some(named.value.0));
      result := result.(locale := named.value.1);
      a := named.value.1;
      assert Named(place.country.value, "", locales, named.value.0, a);
    }
    assert CityLanguage(place, locales, a);
    if place.city.Some? {
      var named := GetI18nName(place.city.value, result.locale, locales);
      if named.Err? {
        forall other | CityLanguage(place, locales, other) ensures other == a {
          CityLanguageUnique(place, locales, other, a);
        }
        return Err(named.error);
      }
      result := result.(city := Some(named.value.0));
      if result.locale == "" {
        result := result.(locale := named.value.1);
      }
      b := named.value.1;
    }
    if place.subdivisions.Some? {
      var texts := NameAll(place.subdivisions.value, result.locale, locales);
      result := result.(subdivisions := texts);
    }
    assert Answers(place, locales, result, a, b);
    return Ok(result);
  }

  lemma AnswerUnique(
      place: Place, locales: seq<Locale>, g: GeoLoc, a: string, b: string, h: GeoLoc, c: string, d: string)
    requires Answers(place, locales, g, a, b) && Answers(place, locales, h, c, d)
    ensures g == h
  {
    if place.country.Some? {
      NamedUnique(place.country.value, "", locales, g.country.value, a, h.country.value, c);
    }
    if place.city.Some? {
      NamedUnique(place.city.value, a, locales, g.city.value, b, h.city.value, d);
    }
    if place.subdivisions.Some? && g.subdivisions.Some? {
      var subs := place.subdivisions.value;
      forall i | 0 <= i < |subs| ensures g.subdivisions.value[i] == h.subdivisions.value[i] {
        assert NamedSomehow(subs[i], g.locale, locales, g.subdivisions.value[i]);
        assert NamedSomehow(subs[i], h.locale, locales, h.subdivisions.value[i]);
        var x :| Named(subs[i], g.locale, locales, g.subdivisions.value[i], x);
        var y :| Named(subs[i], h.locale, locales, h.subdivisions.value[i], y);
        NamedUnique(subs[i], g.locale, locales, g.subdivisions.value[i], x, h.subdivisions.value[i], y);
      }
      assert g.subdivisions.value == h.subdivisions.value;
    }
  }
}
