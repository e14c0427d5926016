/**
 Language preferences (services/geoip/src/locale.rs): one Accept-Language entry and the order
 of a list of them (RFC 9110, sections 12.4.2 and 12.5.4).  Quality values are reals.
 */
module Locales {
  import opened Wrappers

  datatype Locale = Locale(name: string, region: string, q: real)

  const DEFAULT_Q: real := 1.0

  /** The text before and after the first c. */
  function SplitOnce(s: string, c: char): (r: Option<(string, string)>)
    ensures r.None? <==> c !in s
    ensures r.Some? ==> s == r.value.0 + [c] + r.value.1 && c !in r.value.0
  {
    if s == "" then None
    else if s[0] == c then Some(("", s[1..]))
    else
      match SplitOnce(s[1..], c)
      case None => None
      case Some(p) => Some(([s[0]] + p.0, p.1))
  }

  predicate IsSpace(c: char) {
    c == ' ' || '\t' <= c <= '\r'
  }

  function TrimLeft(s: string): string {
    if s != "" && IsSpace(s[0]) then TrimLeft(s[1..]) else s
  }

  function TrimRight(s: string): string {
    if s != "" && IsSpace(s[|s| - 1]) then TrimRight(s[..|s| - 1]) else s
  }

  function Trim(s: string): string {
    TrimRight(TrimLeft(s))
  }

  /** parseReal reads a decimal number, if it is one. */
  function Quality(q: string, parseReal: string -> Option<real>): real {
    if "q=" <= q then
      match parseReal(q[2..])
      case Some(v) => v
      case None => DEFAULT_Q
    else DEFAULT_Q
  }

  function WithName(name: string, q: real): Locale {
    match SplitOnce(name, '-')
    case Some(p) => Locale(p.0, p.1, q)
    case None => Locale(name, "", q)
  }

  function ParseLocale(raw: string, parseReal: string -> Option<real>): Locale {
    match SplitOnce(raw, ';')
    case Some(p) => WithName(Trim(p.0), Quality(Trim(p.1), parseReal))
    case None => WithName(raw, DEFAULT_Q)
  }

  /** Fills in a locale field by field. */
  method Parse(raw: string, parseReal: string -> Option<real>) returns (l: Locale)
    ensures l == ParseLocale(raw, parseReal)
  {
    l := Locale("", "", 0.0);
    var name := raw;
    match SplitOnce(raw, ';') {
      case Some(p) =>
        name := Trim(p.0);
        l := l.(q := Quality(Trim(p.1), parseReal));
      case None =>
        l := l.(q := DEFAULT_Q);
    }
    match SplitOnce(name, '-') {
      case Some(p) =>
        l := l.(name := p.0);
        l := l.(region := p.1);
      case None =>
        l := l.(name := name);
    }
  }

  function FullName(l: Locale): string {
    if l.region != "" then l.name + "-" + l.region else l.name
  }

  /** A plain tag is its own full name unless its first hyphen is its last character. */
  lemma FullNameOfParsed(raw: string, parseReal: string -> Option<real>)
    requires ';' !in raw
    ensures FullName(ParseLocale(raw, parseReal)) == raw
       <==> !(raw != "" && raw[|raw| - 1] == '-' && '-' !in raw[..|raw| - 1])
  {
    var split := SplitOnce(raw, '-');
    if split.Some? {
      var (name, region) := split.value;
      assert raw[|name|] == '-';
      if region == "" {
        assert raw[..|raw| - 1] == name;
        assert |FullName(ParseLocale(raw, parseReal))| < |raw|;
      } else {
        assert raw[..|raw| - 1][|name|] == '-';
      }
    }
  }

  // ---- Entries with a weight ----

  predicate Spaces(s: string) {
    forall i :: 0 <= i < |s| ==> IsSpace(s[i])
  }

  /** Text that trimming leaves alone. */
  predicate Tight(s: string) {
    s == "" || (!IsSpace(s[0]) && !IsSpace(s[|s| - 1]))
  }

  lemma {:induction false} TrimLeftSpaces(a: string, s: string)
    requires Spaces(a) && (s == "" || !IsSpace(s[0]))
    ensures TrimLeft(a + s) == s
  {
    if a == "" {
      assert a + s == s;
    } else {
      assert (a + s)[1..] == a[1..] + s;
      TrimLeftSpaces(a[1..], s);
    }
  }

  lemma {:induction false} TrimRightSpaces(s: string, b: string)
    requires Spaces(b) && (s == "" || !IsSpace(s[|s| - 1]))
    ensures TrimRight(s + b) == s
  {
    if b == "" {
      assert s + b == s;
    } else {
      assert (s + b)[..|s + b| - 1] == s + b[..|b| - 1];
      TrimRightSpaces(s, b[..|b| - 1]);
    }
  }

  lemma TrimPadded(a: string, s: string, b: string)
    requires Spaces(a) && Spaces(b) && Tight(s)
    ensures Trim(a + s + b) == s
  {
    if s == "" {
      assert a + s + b == (a + b) + "";
      TrimLeftSpaces(a + b, "");
    } else {
      assert a + s + b == a + (s + b);
      TrimLeftSpaces(a, s + b);
      TrimRightSpaces(s, b);
    }
  }

  lemma {:induction false} SplitAtFirst(p: string, c: char, r: string)
    requires c !in p
    ensures SplitOnce(p + [c] + r, c) == Some((p, r))
  {
    var s := p + [c] + r;
    if p == "" {
      assert s[1..] == r;
    } else {
      assert s[1..] == p[1..] + [c] + r;
      SplitAtFirst(p[1..], c, r);
      assert [p[0]] + p[1..] == p;
    }
  }

  /** The language and region of a tag: what stands before and after its first hyphen. */
  predicate Parts(tag: string, l: Locale) {
    if '-' in tag then tag == l.name + "-" + l.region && '-' !in l.name else l.name == tag && l.region == ""
  }

  lemma WithNameParts(tag: string, q: real)
    ensures Parts(tag, WithName(tag, q)) && WithName(tag, q).q == q
  {
  }

  /**
   An entry "tag ; q=weight", with any white space around both: its language and region are
   those of the tag, and its quality is the weight if that is readable, and 1 otherwise.
   */
  lemma EntryParsed(
      a: string, tag: string, b: string, c: string, weight: string, d: string, parseReal: string -> Option<real>)
    requires Spaces(a) && Spaces(b) && Spaces(c) && Spaces(d)
    requires ';' !in tag && Tight(tag) && Tight(weight)
    ensures var l := ParseLocale((a + tag + b) + ";" + (c + weight + d), parseReal);
      && Parts(tag, l)
      && l.q == if "q=" <= weight && parseReal(weight[2..]).Some? then parseReal(weight[2..]).value else 1.0
  {
    TrimPadded(a, tag, b);
    TrimPadded(c, weight, d);
    SplitAtFirst(a + tag + b, ';', c + weight + d);
    WithNameParts(tag, Quality(weight, parseReal));
  }

  /** An entry without a semicolon is a tag of quality 1, as it stands. */
  lemma PlainEntryParsed(tag: string, parseReal: string -> Option<real>)
    requires ';' !in tag
    ensures Parts(tag, ParseLocale(tag, parseReal)) && ParseLocale(tag, parseReal).q == 1.0
  {
    WithNameParts(tag, DEFAULT_Q);
  }

  // ---- The order of a list ----

  ghost predicate Descending(ls: seq<Locale>) {
    forall i, j :: 0 <= i < j < |ls| ==> ls[i].q >= ls[j].q
  }

  /** The entries of one quality, in their order. */
  function OfQuality(ls: seq<Locale>, q: real): seq<Locale> {
    if ls == [] then [] else (if ls[0].q == q then [ls[0]] else []) + OfQuality(ls[1..], q)
  }

  /** out is ls by descending quality, and entries of equal quality keep their order. */
  ghost predicate StableSort(ls: seq<Locale>, out: seq<Locale>) {
    Descending(out) && forall q :: OfQuality(out, q) == OfQuality(ls, q)
  }

  function Insert(l: Locale, ls: seq<Locale>): seq<Locale> {
    if ls == [] || l.q >= ls[0].q then [l] + ls else [ls[0]] + Insert(l, ls[1..])
  }

  /** sort_by with the arguments of compare swapped. */
  function FromIter(ls: seq<Locale>): seq<Locale> {
    if ls == [] then [] else Insert(ls[0], FromIter(ls[1..]))
  }

  lemma {:induction false} InsertHolds(l: Locale, ls: seq<Locale>, x: Locale)
    ensures x in Insert(l, ls) <==> x == l || x in ls
  {
    if ls != [] && l.q < ls[0].q {
      InsertHolds(l, ls[1..], x);
    }
  }

  lemma {:induction false} InsertDescends(l: Locale, ls: seq<Locale>)
    requires Descending(ls)
    ensures Descending(Insert(l, ls))
  {
    if ls != [] && l.q < ls[0].q {
      InsertDescends(l, ls[1..]);
      var rest := Insert(l, ls[1..]);
      forall i | 0 <= i < |rest| ensures ls[0].q >= rest[i].q {
        InsertHolds(l, ls[1..], rest[i]);
      }
    }
  }

  lemma OfQualityCons(x: Locale, rest: seq<Locale>, q: real)
    ensures OfQuality([x] + rest, q) == if x.q == q then [x] + OfQuality(rest, q) else OfQuality(rest, q)
  {
    assert ([x] + rest)[1..] == rest;
  }

  lemma {:induction false} InsertQuality(l: Locale, ls: seq<Locale>, q: real)
    ensures OfQuality(Insert(l, ls), q) == if l.q == q then [l] + OfQuality(ls, q) else OfQuality(ls, q)
  {
    if ls == [] || l.q >= ls[0].q {
      OfQualityCons(l, ls, q);
    } else {
      InsertQuality(l, ls[1..], q);
      OfQualityCons(ls[0], Insert(l, ls[1..]), q);
      OfQualityCons(ls[0], ls[1..], q);
      assert ls == [ls[0]] + ls[1..];
    }
  }

  lemma {:induction false} FromIterSorts(ls: seq<Locale>)
    ensures StableSort(ls, FromIter(ls))
  {
    if ls != [] {
      FromIterSorts(ls[1..]);
      InsertDescends(ls[0], FromIter(ls[1..]));
      forall q ensures OfQuality(FromIter(ls), q) == OfQuality(ls, q) {
        InsertQuality(ls[0], FromIter(ls[1..]), q);
      }
    }
  }

  lemma {:induction false} OfQualityHead(ls: seq<Locale>, q: real)
    ensures forall x :: x in OfQuality(ls, q) <==> x in ls && x.q == q
  {
    if ls != [] {
      OfQualityHead(ls[1..], q);
    }
  }

  /** There is only one stable sort, so whatever the library does, the result is FromIter's. */
  lemma {:induction false} StableSortUnique(ls: seq<Locale>, a: seq<Locale>, b: seq<Locale>)
    requires StableSort(ls, a) && StableSort(ls, b)
    ensures a == b
    decreases |a|
  {
    OnlyEmptyHasNoQuality(a);
    OnlyEmptyHasNoQuality(b);
    if a != [] {
      OfQualityHead(a, a[0].q);
      OfQualityHead(b, a[0].q);
      assert a[0] in OfQuality(a, a[0].q);
      OfQualityHead(a, b[0].q);
      OfQualityHead(b, b[0].q);
      assert b[0] in OfQuality(b, b[0].q);
      assert a[0].q == b[0].q;
      assert a[0] == OfQuality(a, a[0].q)[0] == b[0];
      forall q ensures OfQuality(b[1..], q) == OfQuality(a[1..], q) {
        assert OfQuality(a, q) == OfQuality(b, q);
        SameTail(a, b, q);
      }
      StableSortUnique(a[1..], a[1..], b[1..]);
    }
  }

  lemma OnlyEmptyHasNoQuality(ls: seq<Locale>)
    ensures ls == [] <==> forall q :: OfQuality(ls, q) == []
  {
    if ls != [] {
      assert OfQuality(ls, ls[0].q) != [];
    }
  }

  lemma SameTail(a: seq<Locale>, b: seq<Locale>, q: real)
    requires a != [] && b != [] && a[0] == b[0] && OfQuality(a, q) == OfQuality(b, q)
    ensures OfQuality(a[1..], q) == OfQuality(b[1..], q)
  {
    var head := if a[0].q == q then [a[0]] else [];
    assert OfQuality(a, q)[|head|..] == OfQuality(a[1..], q);
    assert OfQuality(b, q)[|head|..] == OfQuality(b[1..], q);
  }

  // ---- The list, parsed and sorted in place ----

  function ParseAll(raws: seq<string>, parseReal: string -> Option<real>): seq<Locale> {
    seq(|raws|, (i: nat) requires i < |raws| => ParseLocale(raws[i], parseReal))
  }

  lemma InsertPasses(done: seq<Locale>, x: Locale, tail: seq<Locale>)
    requires tail != [] && x.q < tail[0].q
    ensures done + Insert(x, tail) == (done + [tail[0]]) + Insert(x, tail[1..])
  {
  }

  lemma InsertStops(pre: seq<Locale>, done: seq<Locale>, x: Locale, tail: seq<Locale>)
    requires tail == [] || x.q >= tail[0].q
    ensures pre + done + [x] + tail == pre + (done + Insert(x, tail))
  {
  }

  lemma Swapped(pre: seq<Locale>, done: seq<Locale>, x: Locale, tail: seq<Locale>, s: seq<Locale>, t: seq<Locale>)
    requires tail != [] && s == pre + done + [x] + tail
    requires var j := |pre| + |done|; t == s[j := tail[0]][j + 1 := x]
    ensures t == pre + (done + [tail[0]]) + [x] + tail[1..]
  {
  }

  /** Moves the element at i right, past the better ones of the sorted rest. */
  method Sink(a: array<Locale>, i: nat)
    requires i < a.Length
    modifies a
    ensures a[..] == old(a[..i]) + Insert(old(a[i]), old(a[i + 1..]))
  {
    ghost var pre, x, rest := a[..i], a[i], a[i + 1..];
    ghost var done, tail := [], rest;
    var j := i;
    while j + 1 < a.Length && a[j].q < a[j + 1].q
      invariant i <= j < a.Length && j == |pre| + |done|
      invariant a[..] == pre + done + [x] + tail
      invariant done + Insert(x, tail) == Insert(x, rest)
      decreases a.Length - j
    {
      ghost var s := a[..];
      assert a[j] == s[j] == x && a[j + 1] == s[j + 1] == tail[0];
      a[j], a[j + 1] := a[j + 1], a[j];
      Swapped(pre, done, x, tail, s, a[..]);
      InsertPasses(done, x, tail);
      done, tail := done + [tail[0]], tail[1..];
      j := j + 1;
    }
    assert a[j] == a[..][j] == x;
    assert tail != [] ==> a[j + 1] == a[..][j + 1] == tail[0];
    InsertStops(pre, done, x, tail);
  }

  method Sort(a: array<Locale>)
    modifies a
    ensures a[..] == FromIter(old(a[..]))
  {
    ghost var was := a[..];
    var i := a.Length;
    while i > 0
      invariant 0 <= i <= a.Length
      invariant a[..] == was[..i] + FromIter(was[i..])
    {
      i := i - 1;
      ghost var s := a[..];
      assert was[i..][1..] == was[i + 1..];
      assert a[..i] == s[..i] == was[..i] && a[i] == s[i] == was[i];
      assert a[i + 1..] == s[i + 1..] == FromIter(was[i + 1..]);
      Sink(a, i);
    }
  }

  /** Collects the parsed entries, then sorts them where they are. */
  method Collect(raws: seq<string>, parseReal: string -> Option<real>) returns (a: array<Locale>)
    ensures fresh(a) && a[..] == FromIter(ParseAll(raws, parseReal))
  {
    a := new Locale[|raws|](_ => Locale("", "", 0.0));
    for i := 0 to |raws|
      invariant a[..i] == ParseAll(raws, parseReal)[..i]
    {
      a[i] := Parse(raws[i], parseReal);
    }
    assert a[..] == ParseAll(raws, parseReal);
    Sort(a);
  }

  /** In particular nothing is lost or invented. */
  lemma FromIterPermutes(ls: seq<Locale>)
    ensures multiset(FromIter(ls)) == multiset(ls)
  {
    FromIterSorts(ls);
    forall x ensures multiset(FromIter(ls))[x] == multiset(ls)[x] {
      CountInQuality(FromIter(ls), x);
      CountInQuality(ls, x);
    }
  }

  lemma {:induction false} CountInQuality(ls: seq<Locale>, x: Locale)
    ensures multiset(ls)[x] == multiset(OfQuality(ls, x.q))[x]
  {
    if ls != [] {
      CountInQuality(ls[1..], x);
      assert ls == [ls[0]] + ls[1..];
    }
  }
}
