/**
 Random short identifiers and how long they have to be (services/lnsmol/src/nanoid.rs).
 Chances are exact: they are ratios of counted sets of id tuples, not an approximation.
 */
module NanoId {
  import opened Arithmetic
  import opened Tuples

  // ---- The alphabet and the generator ----

  type Index64 = i: nat | i < 64

  /** An endless supply of uniform draws below 64; reading it advances a position. */
  type Rng = nat -> Index64

  function CharAt(i: Index64): char {
    if i < 26 then ('A' as int + i) as char
    else if i < 52 then ('a' as int + (i - 26)) as char
    else if i < 62 then ('0' as int + (i - 52)) as char
    else if i == 62 then '-'
    else '_'
  }

  function Charset(): seq<char> {
    seq(64, (i: nat) requires i < 64 => CharAt(i))
  }

  function GenStrId(size: nat, rng: Rng, pos: nat): string {
    seq(size, (i: nat) requires i < size => CharAt(rng(pos + i)))
  }

  /** The ids of a given size. */
  ghost function Ids(size: nat): set<string> {
    All(Elements(Charset()), size)
  }

  lemma CharsetCard()
    ensures |Elements(Charset())| == 64
  {
    assert Distinct(Charset());
    ElementsCard(Charset());
  }

  lemma IdsCard(size: nat)
    ensures |Ids(size)| == Pow(64, size)
  {
    CharsetCard();
    AllCard(Elements(Charset()), size);
  }

  lemma GeneratedInIds(size: nat, rng: Rng, pos: nat)
    ensures GenStrId(size, rng, pos) in Ids(size)
  {
    var id := GenStrId(size, rng, pos);
    forall i | 0 <= i < size ensures id[i] in Elements(Charset()) {
      assert id[i] == Charset()[rng(pos + i)];
    }
  }

  /** Which draw gives a character. */
  function IndexOfChar(c: char): Index64 {
    if 'A' <= c <= 'Z' then c as int - 'A' as int
    else if 'a' <= c <= 'z' then c as int - 'a' as int + 26
    else if '0' <= c <= '9' then c as int - '0' as int + 52
    else if c == '-' then 62
    else 63
  }

  lemma CharIndexed()
    ensures forall i: Index64 :: IndexOfChar(CharAt(i)) == i
    ensures forall c :: c in Elements(Charset()) ==> CharAt(IndexOfChar(c)) == c
  {
  }

  /** The alphabet, written out. */
  lemma CharsetText()
    ensures Charset() == "ABCDEFGHIJKLMNOPQRSTUVWXYZ" + "abcdefghijklmnopqrstuvwxyz" + "0123456789" + "-_"
  {
    assert Charset()[..26] == "ABCDEFGHIJKLMNOPQRSTUVWXYZ";
    assert Charset()[26..52] == "abcdefghijklmnopqrstuvwxyz";
    assert Charset()[52..62] == "0123456789";
    assert Charset()[62..] == "-_";
  }

  function DrawAt(rng: Rng, pos: nat, k: nat): Index64 {
    rng(pos + k)
  }

  ghost predicate SameDraws(r: Rng, p: nat, s: Rng, q: nat, n: nat) {
    forall k :: 0 <= k < n ==> DrawAt(r, p, k) == DrawAt(s, q, k)
  }

  /** Two generators give the same id exactly when all draws behind it are the same. */
  lemma SameIdExactly(size: nat, r: Rng, p: nat, s: Rng, q: nat)
    ensures GenStrId(size, r, p) == GenStrId(size, s, q) <==> SameDraws(r, p, s, q, size)
  {
    var a, b := GenStrId(size, r, p), GenStrId(size, s, q);
    forall i | 0 <= i < size ensures a[i] == b[i] <==> DrawAt(r, p, i) == DrawAt(s, q, i) {
      CharIndexed();
      assert IndexOfChar(a[i]) == r(p + i) && IndexOfChar(b[i]) == s(q + i);
    }
    assert (forall i :: 0 <= i < size ==> a[i] == b[i]) ==> a == b;
  }

  /** The ids a generator gives one after the other, each from fresh draws. */
  function Drawn(size: nat, rng: Rng, pos: nat, n: nat): seq<string> {
    seq(n, (i: nat) requires i < n => GenStrId(size, rng, pos + i * size))
  }

  lemma DrawShift(rng: Rng, pos: nat, i: nat, size: nat, j: nat)
    ensures DrawAt(rng, pos + i * size, j) == DrawAt(rng, pos, i * size + j)
  {
    assert pos + i * size + j == pos + (i * size + j);
  }

  lemma RowsSame(size: nat, r: Rng, p: nat, s: Rng, q: nat, n: nat, i: nat)
    requires SameDraws(r, p, s, q, n * size) && i < n
    ensures SameDraws(r, p + i * size, s, q + i * size, size)
  {
    var a, b := p + i * size, q + i * size;
    forall j | 0 <= j < size ensures DrawAt(r, a, j) == DrawAt(s, b, j) {
      CellWithin(i, j, size, n);
      DrawShift(r, p, i, size, j);
      DrawShift(s, q, i, size, j);
    }
  }

  /** Rows of ids agree exactly when their draws do, so different draws give different rows. */
  lemma SameRowExactly(size: nat, r: Rng, p: nat, s: Rng, q: nat, n: nat)
    ensures Drawn(size, r, p, n) == Drawn(size, s, q, n) <==> SameDraws(r, p, s, q, n * size)
  {
    var a, b := Drawn(size, r, p, n), Drawn(size, s, q, n);
    forall i | 0 <= i < n ensures a[i] == b[i] <==> SameDraws(r, p + i * size, s, q + i * size, size) {
      SameIdExactly(size, r, p + i * size, s, q + i * size);
    }
    if a == b {
      forall k | 0 <= k < n * size ensures DrawAt(r, p, k) == DrawAt(s, q, k) {
        CellOf(k, size, n);
        assert a[k / size] == b[k / size];
        DrawShift(r, p, k / size, size, k % size);
        DrawShift(s, q, k / size, size, k % size);
      }
    }
    if SameDraws(r, p, s, q, n * size) {
      forall i | 0 <= i < n ensures a[i] == b[i] {
        RowsSame(size, r, p, s, q, n, i);
      }
    }
  }

  /** The draw behind place k - pos of a row of ids. */
  function DrawBehind(row: seq<string>, size: nat, pos: nat, k: nat): Index64 {
    if k < pos || size == 0 then 0
    else
      var i, j := (k - pos) / size, (k - pos) % size;
      if i < |row| && j < |row[i]| then IndexOfChar(row[i][j]) else 0
  }

  lemma DrawBehindPlace(row: seq<string>, size: nat, pos: nat, i: nat, j: nat)
    requires i < |row| && j < size == |row[i]|
    ensures DrawBehind(row, size, pos, pos + i * size + j) == IndexOfChar(row[i][j])
  {
    var k := pos + i * size + j;
    Cell(i, j, size);
    assert k - pos == i * size + j;
  }

  lemma CharDrawn(id: string, size: nat, j: nat)
    requires id in Ids(size) && j < size
    ensures |id| == size && CharAt(IndexOfChar(id[j])) == id[j]
  {
    assert id[j] in Elements(Charset());
    CharIndexed();
  }

  lemma IdDrawn(row: seq<string>, size: nat, pos: nat, i: nat, rng: Rng)
    requires i < |row| && row[i] in Ids(size) && forall k: nat :: rng(k) == DrawBehind(row, size, pos, k)
    ensures GenStrId(size, rng, pos + i * size) == row[i]
  {
    var id := GenStrId(size, rng, pos + i * size);
    forall j | 0 <= j < size ensures |row[i]| == size && id[j] == row[i][j] {
      CharDrawn(row[i], size, j);
      DrawBehindPlace(row, size, pos, i, j);
    }
  }

  /**
   Every row of ids of a size comes from some draws, at every position of the generator.
   Together with SameRowExactly, rows of n ids and rows of n * size draws correspond one to
   one, so uniform draws give the uniform, independent ids whose chances are counted below.
   */
  lemma EveryRowDrawn(size: nat, row: seq<string>, pos: nat) returns (rng: Rng)
    requires forall i :: 0 <= i < |row| ==> row[i] in Ids(size)
    ensures Drawn(size, rng, pos, |row|) == row
  {
    rng := (k: nat) => DrawBehind(row, size, pos, k);
    forall i | 0 <= i < |row| ensures GenStrId(size, rng, pos + i * size) == row[i] {
      IdDrawn(row, size, pos, i, rng);
    }
  }

  // ---- The exact chance of a repetition ----

  lemma {:induction false} PowPositive(b: nat, e: nat)
    requires b > 0
    ensures Pow(b, e) > 0
  {
    if e > 0 {
      PowPositive(b, e - 1);
      assert b * Pow(b, e - 1) > 0;
    }
  }

  /** The chance that n independent uniform draws from s are not all different. */
  ghost function RepeatChance<T(!new)>(s: set<T>, n: nat): real
    requires s != {}
  {
    AllCard(s, n);
    PowPositive(|s|, n);
    1.0 - |AllDistinct(s, n)| as real / |All(s, n)| as real
  }

  // ---- A product of remainders against the sum of what is removed ----

  /** What is left of a whole when a share y is removed. */
  function Rest(y: real): real {
    if y <= 1.0 then 1.0 - y else 0.0
  }

  function Product(y: nat -> real, n: nat): real {
    if n == 0 then 1.0 else Product(y, n - 1) * Rest(y(n - 1))
  }

  function Sum(y: nat -> real, n: nat): real {
    if n == 0 then 0.0 else Sum(y, n - 1) + y(n - 1)
  }

  /** Two-sided: p is in [1 - x, 1 / (1 + x)]. */
  ghost predicate Bounded(p: real, x: real) {
    0.0 <= p <= 1.0 && 1.0 - x <= p && p * (1.0 + x) <= 1.0
  }

  lemma ThinOut(p: real, x: real, y: real)
    requires Bounded(p, x) && 0.0 <= x && 0.0 <= y <= 1.0
    ensures Bounded(p * (1.0 - y), x + y)
  {
    ProductNonneg(p, y);
    ProductNonneg(p, 1.0 - y);
    ProductNonneg(1.0 - p, y);
    assert (1.0 - p) * y == y - p * y;
    assert p * (1.0 - y) == p - p * y;
    var z := y * (x + y);
    ProductNonneg(y, x + y);
    ProductNonneg(p, z);
    assert (1.0 - y) * (1.0 + (x + y)) == (1.0 + x) - z;
    assert p * (1.0 - y) * (1.0 + (x + y)) == p * ((1.0 + x) - z) == p * (1.0 + x) - p * z;
  }

  lemma BoundedStep(p: real, x: real, y: real)
    requires Bounded(p, x) && 0.0 <= x && 0.0 <= y
    ensures Bounded(p * Rest(y), x + y)
  {
    if y <= 1.0 {
      ThinOut(p, x, y);
    } else {
      assert p * Rest(y) == 0.0;
    }
  }

  lemma {:induction false} ProductBounds(y: nat -> real, n: nat)
    requires forall i: nat :: y(i) >= 0.0
    ensures Sum(y, n) >= 0.0 && Bounded(Product(y, n), Sum(y, n))
  {
    if n > 0 {
      ProductBounds(y, n - 1);
      BoundedStep(Product(y, n - 1), Sum(y, n - 1), y(n - 1));
    }
  }

  lemma QuotientRest(i: real, e: real)
    requires e > 0.0 && i >= 0.0
    ensures i / e >= 0.0 && (i / e) * e == i
    ensures Rest(i / e) == (if i <= e then e - i else 0.0) / e
  {
    var q := i / e;
    assert q * e == i;
    SignOfProduct(q, e);
    SignOfProduct(q - 1.0, e);
    assert (q - 1.0) * e == i - e;
    if i <= e {
      SignOfProduct((1.0 - q) - (e - i) / e, e);
    }
  }

  // ---- The chance in closed form ----

  /** The chance that a draw from d hits one of i different earlier ones. */
  function Taken(d: nat): nat -> real
    requires d > 0
  {
    (i: nat) => i as real / d as real
  }

  lemma TakenScaled(d: nat, i: nat)
    requires d > 0
    ensures Taken(d)(i) >= 0.0 && Taken(d)(i) * d as real == i as real
    ensures Rest(Taken(d)(i)) == (if i < d then d - i else 0) as real / d as real
  {
    QuotientRest(i as real, d as real);
  }

  /** Each draw in turn misses the ones before it. */
  function NoRepeat(d: nat, n: nat): real
    requires d > 0
  {
    Product(Taken(d), n)
  }

  lemma NoRepeatNext(d: nat, n: nat)
    requires d > 0 && n > 0
    ensures NoRepeat(d, n) == NoRepeat(d, n - 1) * ((if n <= d then d - (n - 1) else 0) as real / d as real)
  {
    TakenScaled(d, n - 1);
  }

  lemma {:induction false} NoRepeatIsRatio(d: nat, n: nat)
    requires d > 0
    ensures Pow(d, n) > 0
    ensures NoRepeat(d, n) == Falling(d, n) as real / Pow(d, n) as real
  {
    PowPositive(d, n);
    if n > 0 {
      NoRepeatIsRatio(d, n - 1);
      NoRepeatNext(d, n);
      RatioFold(Falling(d, n - 1), Pow(d, n - 1), if n <= d then d - (n - 1) else 0, d);
    }
  }

  lemma RepeatChanceIsProduct<T(!new)>(s: set<T>, n: nat)
    requires s != {}
    ensures RepeatChance(s, n) == 1.0 - NoRepeat(|s|, n)
  {
    AllCard(s, n);
    AllDistinctCard(s, n);
    NoRepeatIsRatio(|s|, n);
  }

  /** The exponent of the birthday formula. */
  function Birthday(d: nat, n: nat): real
    requires d > 0
  {
    Sum(Taken(d), n)
  }

  lemma BirthdayNext(d: nat, n: nat) returns (y: real)
    requires d > 0 && n > 0
    ensures Birthday(d, n) == Birthday(d, n - 1) + y
    ensures y * d as real == (n - 1) as real
  {
    y := Taken(d)(n - 1);
    TakenScaled(d, n - 1);
  }

  /** It is n(n-1) / 2d. */
  lemma {:induction false} BirthdayClosed(d: nat, n: nat)
    requires d > 0
    ensures 2.0 * Birthday(d, n) * d as real == (n * (n - 1)) as real
  {
    if n > 0 {
      BirthdayClosed(d, n - 1);
      var y := BirthdayNext(d, n);
      AddScaled(Birthday(d, n - 1), y, d as real, n);
    }
  }

  lemma AddScaled(x: real, y: real, d: real, n: nat)
    requires n > 0 && 2.0 * x * d == ((n - 1) * (n - 2)) as real && y * d == (n - 1) as real
    ensures 2.0 * (x + y) * d == (n * (n - 1)) as real
  {
    assert 2.0 * (x + y) * d == 2.0 * x * d + 2.0 * (y * d);
    assert n * (n - 1) == (n - 1) * (n - 2) + 2 * (n - 1);
  }

  lemma NoRepeatBounds(d: nat, n: nat)
    requires d > 0
    ensures Bounded(NoRepeat(d, n), Birthday(d, n))
  {
    forall i: nat ensures Taken(d)(i) >= 0.0 {
      TakenScaled(d, i);
    }
    ProductBounds(Taken(d), n);
  }

  // ---- The size of the ids ----

  const USIZE: nat := 0x1_0000_0000_0000_0000

  /** The least exponent k >= from with 64^k >= x. */
  function LeastExponent(x: real, from: nat): nat
    decreases if x > Pow(64, from) as real then (x - Pow(64, from) as real).Floor + 1 else 0
  {
    if x <= Pow(64, from) as real then from
    else
      PowPositive(64, from);
      LeastExponent(x, from + 1)
  }

  /** n(n-1) in usize arithmetic, where 0 - 1 wraps as well. */
  function WrappedTop(n: nat): nat {
    (n * ((n - 1) % USIZE)) % USIZE
  }

  /**
   The id size for the n-th link, with risk = -ln(1 - target).  The product n(n-1) is a
   usize and wraps; the logarithm of a quotient at most 1 is not positive and casts to 0.
   */
  function CalcIdSize(n: nat, risk: real): nat
    requires n < USIZE && risk > 0.0
  {
    SizeFor(WrappedTop(n), risk)
  }

  function SizeFor(top: nat, risk: real): nat
    requires risk > 0.0
  {
    var c := LeastExponent(top as real / (2.0 * risk), 0);
    if c > 2 then c else 3
  }

  /** The size c leaves room: 2 * risk * 64^c >= n(n-1). */
  ghost predicate Roomy(n: nat, risk: real, c: nat) {
    2.0 * risk * Pow(64, c) as real >= (n * (n - 1)) as real
  }

  lemma {:induction false} LeastExponentSpec(x: real, from: nat)
    ensures from <= LeastExponent(x, from)
    ensures x <= Pow(64, LeastExponent(x, from)) as real
    ensures forall k :: from <= k < LeastExponent(x, from) ==> Pow(64, k) as real < x
    decreases if x > Pow(64, from) as real then (x - Pow(64, from) as real).Floor + 1 else 0
  {
    if x > Pow(64, from) as real {
      PowPositive(64, from);
      LeastExponentSpec(x, from + 1);
    }
  }

  lemma {:induction false} PowMonotone(j: nat, k: nat)
    requires j <= k
    ensures Pow(64, j) <= Pow(64, k)
  {
    if j < k {
      PowMonotone(j, k - 1);
    }
  }

  lemma ScaleBound(top: real, risk: real, p: real)
    requires risk > 0.0
    ensures top / (2.0 * risk) <= p <==> top <= 2.0 * risk * p
  {
    var q := top / (2.0 * risk);
    assert q * (2.0 * risk) == top;
    if q <= p {
      assert (p - q) * (2.0 * risk) >= 0.0;
    } else {
      assert (q - p) * (2.0 * risk) > 0.0;
    }
  }

  lemma SizeForRoom(top: nat, risk: real)
    requires risk > 0.0
    ensures top as real <= 2.0 * risk * Pow(64, SizeFor(top, risk)) as real
  {
    var c, x := SizeFor(top, risk), top as real / (2.0 * risk);
    LeastExponentSpec(x, 0);
    PowMonotone(LeastExponent(x, 0), c);
    ScaleBound(top as real, risk, Pow(64, c) as real);
  }

  lemma BelowSizeFor(top: nat, risk: real, k: nat)
    requires risk > 0.0 && 3 <= k < SizeFor(top, risk)
    ensures 2.0 * risk * Pow(64, k) as real < top as real
  {
    LeastExponentSpec(top as real / (2.0 * risk), 0);
    ScaleBound(top as real, risk, Pow(64, k) as real);
  }

  /** Of the sizes of at least 3, c is the least whose id space has room for top. */
  ghost predicate LeastRoom(c: nat, top: nat, risk: real) {
    && 3 <= c
    && top as real <= 2.0 * risk * Pow(64, c) as real
    && forall k :: 3 <= k < c ==> 2.0 * risk * Pow(64, k) as real < top as real
  }

  lemma SizeForLeast(top: nat, risk: real)
    requires risk > 0.0
    ensures LeastRoom(SizeFor(top, risk), top, risk)
  {
    SizeForRoom(top, risk);
    forall k | 3 <= k < SizeFor(top, risk) ensures 2.0 * risk * Pow(64, k) as real < top as real {
      BelowSizeFor(top, risk, k);
    }
  }

  /** The size is the least one of at least 3 that has room for the wrapped product. */
  lemma CalcIdSizeLeast(n: nat, risk: real)
    requires n < USIZE && risk > 0.0
    ensures LeastRoom(CalcIdSize(n, risk), WrappedTop(n), risk)
  {
    SizeForLeast(WrappedTop(n), risk);
  }

  /** The largest n whose product n(n-1) does not wrap. */
  const LARGEST_EXACT: nat := 0x1_0000_0000

  lemma WrapsAbove(n: nat)
    requires 1 <= n < USIZE
    ensures n <= LARGEST_EXACT ==> WrappedTop(n) == n * (n - 1)
    ensures n > LARGEST_EXACT ==> WrappedTop(n) < USIZE <= n * (n - 1)
  {
    var p := n * (n - 1);
    assert (n - 1) % USIZE == n - 1;
    if n <= LARGEST_EXACT {
      ProductMonotone(n, n - 1, LARGEST_EXACT, LARGEST_EXACT - 1);
    } else {
      ProductMonotone(LARGEST_EXACT, LARGEST_EXACT, n, n - 1);
    }
  }

  lemma PowEleven()
    ensures Pow(64, 11) == 0x4_0000_0000_0000_0000
  {
    assert Pow(64, 5) == 0x4000_0000;
    assert Pow(64, 8) == 0x1_0000_0000_0000;
  }

  /** For a wrapped product there is a small risk whose size is too short. */
  lemma WrappedSizeTooShort(n: nat) returns (risk: real)
    requires LARGEST_EXACT < n < USIZE
    ensures 0.0 < risk <= 0.5 && !Roomy(n, risk, CalcIdSize(n, risk))
  {
    WrapsAbove(n);
    PowEleven();
    var top, p := WrappedTop(n) as real, Pow(64, 11) as real;
    risk := if top == 0.0 then 0.5 else top / (2.0 * p);
    CalcIdSizeLeast(n, risk);
    var c := CalcIdSize(n, risk);
    if top == 0.0 {
      assert c == 3;
      assert Pow(64, 3) == 0x4_0000;
    } else {
      assert 2.0 * risk * p == top;
      assert c <= 11;
      PowMonotone(c, 11);
      ScaleMonotone(2.0 * risk, Pow(64, c) as real, p);
    }
  }

  /** Without wrap-around, the size is the least one of at least 3 that has room. */
  lemma CalcIdSizeRoomy(n: nat, risk: real)
    requires 1 <= n <= LARGEST_EXACT && risk > 0.0
    ensures 3 <= CalcIdSize(n, risk) && Roomy(n, risk, CalcIdSize(n, risk))
    ensures forall k :: 3 <= k < CalcIdSize(n, risk) ==> !Roomy(n, risk, k)
  {
    CalcIdSizeLeast(n, risk);
    WrapsAbove(n);
  }

  /**
   The size has room for every target exactly when n(n-1) fits a usize, that is up to
   2^32 links; beyond that the wrapped product gives ids that are too short.
   */
  lemma RoomyExactlyUpToWrap(n: nat)
    requires 1 <= n < USIZE
    ensures (forall risk: real :: 0.0 < risk <= 0.5 ==> Roomy(n, risk, CalcIdSize(n, risk)))
       <==> n <= LARGEST_EXACT
  {
    if n <= LARGEST_EXACT {
      forall risk: real | 0.0 < risk <= 0.5 ensures Roomy(n, risk, CalcIdSize(n, risk)) {
        CalcIdSizeRoomy(n, risk);
      }
    } else {
      var risk := WrappedSizeTooShort(n);
    }
  }

  lemma BirthdayScale(d: nat, n: nat, risk: real)
    requires d > 0 && n > 0
    ensures Birthday(d, n) <= risk <==> (n * (n - 1)) as real <= 2.0 * risk * d as real
  {
    BirthdayClosed(d, n);
    CompareTimes(2.0 * Birthday(d, n), 2.0 * risk, d as real);
  }

  lemma BoundInverse(p: real, x: real, risk: real)
    requires Bounded(p, x) && 0.0 < risk < x
    ensures 1.0 - p > risk / (1.0 + risk)
  {
    var e := 1.0 + risk;
    ScaledBelow(p, e, 1.0 + x);
    assert (1.0 - p) * e == e - p * e;
    QuotientBelow(risk, e, 1.0 - p);
  }

  lemma ChanceOfBounded(p: real, x: real, risk: real)
    requires Bounded(p, x) && risk > 0.0
    ensures if x <= risk then 1.0 - p <= risk else 1.0 - p > risk / (1.0 + risk)
  {
    if x > risk {
      BoundInverse(p, x, risk);
    }
  }

  lemma RoomIsBirthday(n: nat, risk: real, k: nat)
    requires 1 <= n && risk > 0.0
    ensures Pow(64, k) > 0
    ensures Roomy(n, risk, k) <==> Birthday(Pow(64, k), n) <= risk
  {
    PowPositive(64, k);
    BirthdayScale(Pow(64, k), n, risk);
  }

  lemma RoomDecidesChance(n: nat, risk: real, k: nat)
    requires 1 <= n && risk > 0.0
    ensures Pow(64, k) > 0
    ensures Roomy(n, risk, k) ==> 1.0 - NoRepeat(Pow(64, k), n) <= risk
    ensures !Roomy(n, risk, k) ==> 1.0 - NoRepeat(Pow(64, k), n) > risk / (1.0 + risk)
  {
    RoomIsBirthday(n, risk, k);
    NoRepeatBounds(Pow(64, k), n);
    ChanceOfBounded(NoRepeat(Pow(64, k), n), Birthday(Pow(64, k), n), risk);
  }

  lemma IdsRepeatChance(k: nat, n: nat)
    ensures Ids(k) != {} && Pow(64, k) > 0
    ensures RepeatChance(Ids(k), n) == 1.0 - NoRepeat(Pow(64, k), n)
  {
    PowPositive(64, k);
    IdsCard(k);
    RepeatChanceIsProduct(Ids(k), n);
  }

  /**
   n ids of the chosen size repeat with an exact chance of at most risk, while any
   smaller admissible size would repeat with a chance above risk / (1 + risk).
   */
  lemma ChosenSizeIsSafeAndShortest(n: nat, risk: real, k: nat)
    requires 1 <= n <= LARGEST_EXACT && risk > 0.0 && 3 <= k <= CalcIdSize(n, risk)
    ensures Ids(k) != {}
    ensures k == CalcIdSize(n, risk) ==> RepeatChance(Ids(k), n) <= risk
    ensures k < CalcIdSize(n, risk) ==> RepeatChance(Ids(k), n) > risk / (1.0 + risk)
  {
    CalcIdSizeRoomy(n, risk);
    IdsRepeatChance(k, n);
    RoomDecidesChance(n, risk, k);
  }

  lemma RoomyForLess(n: nat, m: nat, risk: real, c: nat)
    requires 1 <= n <= m && Roomy(m, risk, c)
    ensures Roomy(n, risk, c)
  {
    ProductMonotone(n, n - 1, m, m - 1);
  }

  /** More links never get shorter ids. */
  lemma CalcIdSizeMonotone(n: nat, m: nat, risk: real)
    requires 1 <= n <= m <= LARGEST_EXACT && risk > 0.0
    ensures CalcIdSize(n, risk) <= CalcIdSize(m, risk)
  {
    CalcIdSizeRoomy(n, risk);
    CalcIdSizeRoomy(m, risk);
    RoomyForLess(n, m, risk, CalcIdSize(m, risk));
  }
}
