/** Sequence numbers of migration files (cmd/provision/migrate.go). */
module Migrations {
  import opened Wrappers
  import opened Decimal
  import opened Paths

  datatype Error = InvalidWidth | Malformed | OutOfRange | TooLarge | Duplicate | NotCreated

  const UINT64: nat := 0x1_0000_0000_0000_0000

  // ---- Strings ----

  /** Byte-wise order, the order file names are listed in. */
  predicate LexLe(a: string, b: string) {
    a == "" || (b != "" && (a[0] < b[0] || (a[0] == b[0] && LexLe(a[1..], b[1..]))))
  }

  function Pow10(d: nat): nat {
    if d == 0 then 1 else 10 * Pow10(d - 1)
  }

  /** A number in at least d digits, as %0*d prints it. */
  function Padded(n: nat, d: nat): (s: string)
    ensures |s| >= d && |s| >= |Digits(n)| && AllDigits(s)
  {
    if |Digits(n)| >= d then Digits(n) else seq(d - |Digits(n)|, _ => '0') + Digits(n)
  }

  function ParseUint(s: string): Option<nat> {
    if s != "" && (forall i :: 0 <= i < |s| ==> IsDigit(s[i])) && Value(s) < UINT64 then Some(Value(s)) else None
  }

  // ---- The next version ----

  function Render(next: nat, digits: int): Result<string, Error>
    requires digits > 0
  {
    var version := Padded(next, digits);
    if |version| > digits then Err(TooLarge) else Ok(version)
  }

  /** The next version after the one the last file name holds. */
  function CountUp(parsed: Option<nat>, digits: int): Result<string, Error>
    requires digits > 0
  {
    match parsed
    case None => Err(OutOfRange)
    case Some(n) => Render((n + 1) % UINT64, digits)
  }

  function NextSeqVersion(matches: seq<string>, digits: int): Result<string, Error> {
    if digits <= 0 then Err(InvalidWidth)
    else if |matches| == 0 then Render(1, digits)
    else
      var base := Base(matches[|matches| - 1]);
      var idx := IndexOf(base, '_');
      if idx == |base| || idx < 1 then Err(Malformed)
      else
        CountUp(ParseUint(base[..idx]), digits)
  }

  // ---- Numbers and their notation ----

  lemma {:induction false} ValueBound(s: string)
    requires AllDigits(s)
    ensures Value(s) < Pow10(|s|)
  {
    if s != "" {
      ValueBound(s[..|s| - 1]);
    }
  }

  lemma TenTimes(a: int, p: nat)
    ensures 10 * (a * p) == a * (10 * p)
  {
  }

  lemma {:induction false} ValueFront(s: string)
    requires AllDigits(s) && s != ""
    ensures Value(s) == (s[0] as int - '0' as int) * Pow10(|s| - 1) + Value(s[1..])
  {
    if |s| > 1 {
      var t := s[..|s| - 1];
      ValueFront(t);
      assert t[1..] == s[1..][..|s| - 2];
      TenTimes(s[0] as int - '0' as int, Pow10(|s| - 2));
    }
  }

  /** Among numbers written in equally many digits, byte order is numeric order. */
  lemma {:induction false} LexIsNumeric(a: string, b: string)
    requires AllDigits(a) && AllDigits(b) && |a| == |b|
    ensures LexLe(a, b) <==> Value(a) <= Value(b)
  {
    if a != "" {
      ValueFront(a);
      ValueFront(b);
      LexIsNumeric(a[1..], b[1..]);
      ValueBound(a[1..]);
      ValueBound(b[1..]);
      var x, y, p := a[0] as int, b[0] as int, Pow10(|a| - 1);
      Lead(x - '0' as int, y - '0' as int, p, Value(a[1..]), Value(b[1..]));
    }
  }

  lemma Lead(x: int, y: int, p: nat, r: nat, s: nat)
    requires r < p && s < p
    ensures x < y ==> x * p + r < y * p + s
    ensures y < x ==> y * p + s < x * p + r
  {
    if x < y {
      assert (x + 1) * p <= y * p;
    } else if y < x {
      assert (y + 1) * p <= x * p;
    }
  }

  lemma {:induction false} ZerosValue(k: nat, s: string)
    requires AllDigits(s)
    ensures AllDigits(seq(k, _ => '0') + s) && Value(seq(k, _ => '0') + s) == Value(s)
    decreases |s|, k
  {
    var z := seq(k, _ => '0');
    if s == "" {
      if k > 0 {
        ZerosValue(k - 1, s);
        assert (z + s)[..k - 1] == seq(k - 1, _ => '0') + s;
      }
    } else {
      ZerosValue(k, s[..|s| - 1]);
      assert (z + s)[..|z + s| - 1] == z + s[..|s| - 1];
    }
  }

  lemma {:induction false} DigitsFit(n: nat, d: nat)
    requires d > 0
    ensures |Digits(n)| <= d <==> n < Pow10(d)
    decreases d
  {
    if n >= 10 {
      if d == 1 {
      } else {
        DigitsFit(n / 10, d - 1);
      }
    } else {
      assert Pow10(d) >= 10 by { PowAtLeastTen(d); }
    }
  }

  lemma {:induction false} PowAtLeastTen(d: nat)
    requires d > 0
    ensures Pow10(d) >= 10
  {
    if d > 1 {
      PowAtLeastTen(d - 1);
    }
  }

  lemma RenderSpec(n: nat, d: nat)
    requires d > 0
    ensures Render(n, d).Ok? <==> n < Pow10(d)
    ensures Render(n, d).Ok? ==>
      |Render(n, d).value| == d && AllDigits(Render(n, d).value) && Value(Render(n, d).value) == n
    ensures Render(n, d).Err? ==> Render(n, d) == Err(TooLarge)
  {
    DigitsFit(n, d);
    ValueOfDigits(n);
    if |Digits(n)| < d {
      ZerosValue(d - |Digits(n)|, Digits(n));
    }
  }

  // ---- Directories of migrations ----

  /** The file's base name is a version of exactly d digits, an underscore and the rest. */
  ghost predicate WellNamed(path: string, d: nat) {
    var base := Base(path);
    d > 0 && |base| > d && base[d] == '_' && AllDigits(base[..d])
  }

  ghost function Version(path: string, d: nat): nat
    requires WellNamed(path, d)
  {
    Value(Base(path)[..d])
  }

  ghost predicate Listing(matches: seq<string>, d: nat) {
    && (forall i :: 0 <= i < |matches| ==> WellNamed(matches[i], d))
    && (forall i, j :: 0 <= i < j < |matches| ==> LexLe(Base(matches[i]), Base(matches[j])))
  }

  ghost predicate IsHighest(matches: seq<string>, d: nat, m: nat)
    requires Listing(matches, d)
  {
    && (forall i :: 0 <= i < |matches| ==> Version(matches[i], d) <= m)
    && (if matches == [] then m == 0 else exists i :: 0 <= i < |matches| && Version(matches[i], d) == m)
  }

  lemma {:induction false} LexPrefix(a: string, b: string, d: nat)
    requires LexLe(a, b) && d <= |a| && d <= |b|
    ensures LexLe(a[..d], b[..d])
  {
    if d > 0 {
      assert a[..d][1..] == a[1..][..d - 1] && b[..d][1..] == b[1..][..d - 1];
      if a[0] == b[0] {
        LexPrefix(a[1..], b[1..], d - 1);
      }
    }
  }

  /** The last file of a listing has the highest version. */
  lemma LastIsHighest(matches: seq<string>, d: nat)
    requires Listing(matches, d) && matches != []
    ensures IsHighest(matches, d, Version(matches[|matches| - 1], d))
  {
    var last := matches[|matches| - 1];
    assert WellNamed(last, d);
    forall i | 0 <= i < |matches| ensures Version(matches[i], d) <= Version(last, d) {
      assert WellNamed(matches[i], d);
      if i < |matches| - 1 {
        LexPrefix(Base(matches[i]), Base(last), d);
        LexIsNumeric(Base(matches[i])[..d], Base(last)[..d]);
      }
    }
  }

  lemma VersionText(path: string, d: nat)
    requires WellNamed(path, d)
    ensures IndexOf(Base(path), '_') == d
  {
    var base, i := Base(path), IndexOf(Base(path), '_');
    assert forall k :: 0 <= k < d ==> base[k] == base[..d][k];
    assert forall k :: 0 <= k < i ==> base[k] == base[..i][k];
  }

  /** What the next version should be: one more than the highest, in d digits, if that fits. */
  function Ideal(highest: nat, d: nat): Result<string, Error>
    requires d > 0
  {
    if highest + 1 < Pow10(d) then Ok(Padded(highest + 1, d)) else Err(TooLarge)
  }

  /** What counting up from version m in 64 bits gives, if m parses at all. */
  function After(m: nat, d: nat): Result<string, Error>
    requires d > 0
  {
    if m < UINT64 - 1 then Render(m + 1, d) else if m < UINT64 then Render(0, d) else Err(OutOfRange)
  }

  lemma CountUpIsAfter(m: nat, d: nat)
    requires d > 0
    ensures CountUp(if m < UINT64 then Some(m) else None, d) == After(m, d)
  {
  }

  lemma LastVersionParses(matches: seq<string>, d: nat)
    requires d > 0 && Listing(matches, d) && matches != []
    ensures var last := matches[|matches| - 1];
      && NextSeqVersion(matches, d) == CountUp(ParseUint(Base(last)[..d]), d)
      && ParseUint(Base(last)[..d]) == if Version(last, d) < UINT64 then Some(Version(last, d)) else None
  {
    var last := matches[|matches| - 1];
    assert WellNamed(last, d);
    VersionText(last, d);
  }

  lemma HighestDecides(matches: seq<string>, d: nat, highest: nat)
    requires d > 0 && Listing(matches, d) && IsHighest(matches, d, highest)
    ensures NextSeqVersion(matches, d) == After(highest, d)
  {
    if matches != [] {
      assert highest == Version(matches[|matches| - 1], d) by {
        LastIsHighest(matches, d);
        HighestUnique(matches, d, highest, Version(matches[|matches| - 1], d));
      }
      LastVersionParses(matches, d);
      CountUpIsAfter(highest, d);
    }
  }

  /** Version 0 is never the ideal answer. */
  lemma ZeroIsNotIdeal(highest: nat, d: nat)
    requires d > 0
    ensures Render(0, d) != Ideal(highest, d)
  {
    RenderSpec(0, d);
    PowPositive(d);
    RenderSpec(highest + 1, d);
    if highest + 1 < Pow10(d) {
      assert Ideal(highest, d) == Render(highest + 1, d);
    }
  }

  /**
   The next version is the ideal one exactly when the highest is below 2^64 - 1: at that
   number the counter wraps to 0, and above it the version does not parse.
   */
  lemma NextIsIdealExactlyBelowWrap(matches: seq<string>, d: nat, highest: nat)
    requires d > 0 && Listing(matches, d) && IsHighest(matches, d, highest)
    ensures NextSeqVersion(matches, d) == Ideal(highest, d) <==> highest < UINT64 - 1
  {
    HighestDecides(matches, d, highest);
    CompareIdeal(highest, d);
  }

  lemma CompareIdeal(highest: nat, d: nat)
    requires d > 0
    ensures After(highest, d) == Ideal(highest, d) <==> highest < UINT64 - 1
  {
    RenderIsIdeal(highest, d);
    ZeroIsNotIdeal(highest, d);
  }

  lemma RenderIsIdeal(highest: nat, d: nat)
    requires d > 0
    ensures Render(highest + 1, d) == Ideal(highest, d)
    ensures Ideal(highest, d) != Err(OutOfRange)
  {
    RenderSpec(highest + 1, d);
  }

  lemma HighestUnique(matches: seq<string>, d: nat, a: nat, b: nat)
    requires Listing(matches, d) && IsHighest(matches, d, a) && IsHighest(matches, d, b)
    ensures a == b
  {
  }

  lemma {:induction false} PowPositive(d: nat)
    ensures Pow10(d) > 0
  {
    if d > 0 {
      PowPositive(d - 1);
    }
  }

  lemma {:induction false} PowMonotone(d: nat, e: nat)
    requires d <= e
    ensures Pow10(d) <= Pow10(e)
  {
    if d < e {
      PowMonotone(d, e - 1);
    }
  }

  /** A version of at most 19 digits is well below the wrap. */
  lemma HighestBelowWrap(matches: seq<string>, d: nat, highest: nat)
    requires 1 <= d <= 19 && Listing(matches, d) && IsHighest(matches, d, highest)
    ensures highest < UINT64 - 1
  {
    if matches != [] {
      var i :| 0 <= i < |matches| && Version(matches[i], d) == highest;
      ValueBound(Base(matches[i])[..d]);
    }
    PowMonotone(d, 19);
    assert Pow10(10) == 1_0000_000_000;
    assert Pow10(19) == 1_0000_000_000 * 1_000_000_000;
  }

  lemma AboveHighestUnused(matches: seq<string>, d: nat, highest: nat, v: string)
    requires Listing(matches, d) && IsHighest(matches, d, highest)
    requires AllDigits(v) && Value(v) == highest + 1
    ensures forall i :: 0 <= i < |matches| ==> Base(matches[i])[..d] != v
  {
    forall i | 0 <= i < |matches| ensures Base(matches[i])[..d] != v {
      assert WellNamed(matches[i], d) && Version(matches[i], d) <= highest;
    }
  }

  /**
   With at most 19 digits that is always so: the answer is one more than the highest version,
   in d digits and used by no file, or an error exactly when it needs more than d digits.
   */
  lemma NextVersion(matches: seq<string>, d: nat, highest: nat)
    requires 1 <= d <= 19 && Listing(matches, d) && IsHighest(matches, d, highest)
    ensures NextSeqVersion(matches, d).Ok? <==> highest + 1 < Pow10(d)
    ensures NextSeqVersion(matches, d).Err? ==> NextSeqVersion(matches, d) == Err(TooLarge)
    ensures NextSeqVersion(matches, d).Ok? ==>
      var v := NextSeqVersion(matches, d).value;
      && |v| == d && AllDigits(v) && Value(v) == highest + 1
      && forall i :: 0 <= i < |matches| ==> Base(matches[i])[..d] != v
  {
    HighestBelowWrap(matches, d, highest);
    HighestDecides(matches, d, highest);
    RenderSpec(highest + 1, d);
    if Render(highest + 1, d).Ok? {
      AboveHighestUnused(matches, d, highest, Render(highest + 1, d).value);
    }
  }

  // ---- Any directory at all ----

  lemma UnderscoreAt(p: string, rest: string)
    requires '_' !in p
    ensures IndexOf(p + "_" + rest, '_') == |p|
  {
    var base, i := p + "_" + rest, IndexOf(p + "_" + rest, '_');
    assert forall k :: 0 <= k < i ==> base[k] == base[..i][k];
    assert base[|p|] == '_';
  }

  /** What counting up in 64 bits makes of n. */
  function Following(n: nat): nat {
    if n < 0xFFFF_FFFF_FFFF_FFFF then n + 1 else 0
  }

  lemma FollowingWraps(n: nat)
    requires n < UINT64
    ensures Following(n) == (n + 1) % UINT64
  {
  }

  /** Reading p and counting up. */
  lemma CountUpRead(p: string, d: nat)
    requires p != "" && d > 0
    ensures var r, readable := CountUp(ParseUint(p), d), AllDigits(p) && Value(p) < 0x1_0000_0000_0000_0000;
      && (r == Err(OutOfRange) <==> !readable)
      && (r == Err(TooLarge) <==> readable && Following(Value(p)) >= Pow10(d))
      && (r.Ok? <==> readable && Following(Value(p)) < Pow10(d))
      && (r.Ok? ==> |r.value| == d && AllDigits(r.value) && Value(r.value) == Following(Value(p)))
  {
    if ParseUint(p).Some? {
      FollowingWraps(Value(p));
      RenderSpec(Following(Value(p)), d);
    }
  }

  /**
   The answer in terms of the last file's base name: what stands before its first underscore
   decides, and without an underscore the name is malformed.
   */
  lemma NextAfterLast(matches: seq<string>, d: nat, p: string, rest: string)
    requires d > 0 && matches != []
    ensures '_' !in Base(matches[|matches| - 1]) ==> NextSeqVersion(matches, d) == Err(Malformed)
    ensures Base(matches[|matches| - 1]) == p + "_" + rest && '_' !in p ==>
      var r, readable := NextSeqVersion(matches, d), AllDigits(p) && Value(p) < 0x1_0000_0000_0000_0000;
      && (r == Err(Malformed) <==> p == "")
      && (r == Err(OutOfRange) <==> p != "" && !readable)
      && (r == Err(TooLarge) <==> p != "" && readable && Following(Value(p)) >= Pow10(d))
      && (r.Ok? <==> p != "" && readable && Following(Value(p)) < Pow10(d))
      && (r.Ok? ==> |r.value| == d && AllDigits(r.value) && Value(r.value) == Following(Value(p)))
  {
    if Base(matches[|matches| - 1]) == p + "_" + rest && '_' !in p {
      UnderscoreAt(p, rest);
      assert (p + "_" + rest)[..|p|] == p;
      if p != "" {
        CountUpRead(p, d);
      }
    }
  }
}
