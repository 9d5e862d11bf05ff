/**
 * The partition table of the crawler: ten GitHub search qualifiers on the
 * star count, each either `stars:a..b` (both ends inclusive) or `stars:>n`
 * (strictly more than n).  Each qualifier is parsed into a band of star
 * counts, and the table is proved to cover every star count from 10 upwards
 * exactly once.
 */
module StarRanges {
  import opened Wrappers

  /** The qualifiers the crawler walks, in order. */
  const STAR_RANGES: seq<string> := [
    "stars:10..50",
    "stars:51..100",
    "stars:101..200",
    "stars:201..500",
    "stars:501..1000",
    "stars:1001..5000",
    "stars:5001..10000",
    "stars:10001..50000",
    "stars:50001..100000",
    "stars:>100000"
  ]

  /** The bands the qualifiers denote, lowest first. */
  const BANDS: seq<Band> := [
    Band(10, Some(50)),
    Band(51, Some(100)),
    Band(101, Some(200)),
    Band(201, Some(500)),
    Band(501, Some(1000)),
    Band(1001, Some(5000)),
    Band(5001, Some(10000)),
    Band(10001, Some(50000)),
    Band(50001, Some(100000)),
    Band(100001, None)
  ]

  /** A set of star counts: from `lo` up to `hi` inclusive, or without end when `hi` is None. */
  datatype Band = Band(lo: nat, hi: Option<nat>)

  predicate Contains(b: Band, n: int) {
    b.lo <= n && (b.hi.None? || n <= b.hi.value)
  }

  // ---------------------------------------------------------------------
  // Decimal numerals
  // ---------------------------------------------------------------------

  predicate IsDigit(c: char) {
    '0' <= c <= '9'
  }

  predicate AllDigits(s: string) {
    forall i :: 0 <= i < |s| ==> IsDigit(s[i])
  }

  /** The value of a string of decimal digits, most significant first. */
  function DigitsValue(s: string): nat
    requires AllDigits(s)
  {
    if s == [] then 0
    else DigitsValue(s[..|s| - 1]) * 10 + (s[|s| - 1] - '0') as nat
  }

  /** A non-negative decimal numeral; anything else (empty, sign, letters) is rejected. */
  function ParseNat(s: string): Option<nat> {
    if s != [] && AllDigits(s) then Some(DigitsValue(s)) else None
  }

  /** The shortest decimal numeral of `n`. */
  function ShowNat(n: nat): (s: string)
    ensures s != [] && AllDigits(s)
  {
    if n < 10 then ['0' + n as char]
    else ShowNat(n / 10) + ['0' + (n % 10) as char]
  }

  lemma {:induction false} ParseShowNat(n: nat)
    ensures ParseNat(ShowNat(n)) == Some(n)
  {
    var s := ShowNat(n);
    if n < 10 {
      assert s[..|s| - 1] == [];
      assert DigitsValue(s) == n;
    } else {
      ParseShowNat(n / 10);
      assert s[..|s| - 1] == ShowNat(n / 10);
    }
  }

  /** The length of the run of digits that starts `s`. */
  function DigitSpan(s: string): (k: nat)
    ensures k <= |s| && AllDigits(s[..k])
    ensures k < |s| ==> !IsDigit(s[k])
  {
    if s != [] && IsDigit(s[0]) then
      var k := 1 + DigitSpan(s[1..]);
      assert s[..k] == [s[0]] + s[1..][..k - 1];
      k
    else 0
  }

  lemma {:induction false} DigitSpanOfNumeral(d: string, rest: string)
    requires AllDigits(d)
    requires rest == [] || !IsDigit(rest[0])
    ensures DigitSpan(d + rest) == |d|
  {
    if d != [] {
      assert (d + rest)[1..] == d[1..] + rest;
      DigitSpanOfNumeral(d[1..], rest);
    }
  }

  // ---------------------------------------------------------------------
  // Qualifiers
  // ---------------------------------------------------------------------

  const PREFIX: string := "stars:"

  /**
   * The band of a `stars:a..b` or `stars:>n` qualifier; any other text is
   * rejected.  Only text that starts with the prefix parses, and `>n`
   * always gives a band starting above 0.
   */
  function ParseRange(q: string): (r: Option<Band>)
    ensures r.Some? ==> |q| > |PREFIX| && q[..|PREFIX|] == PREFIX
    ensures r.Some? && r.value.hi.None? ==> r.value.lo > 0
  {
    if |q| < |PREFIX| || q[..|PREFIX|] != PREFIX then None
    else
      var body := q[|PREFIX|..];
      if body != [] && body[0] == '>' then
        match ParseNat(body[1..])
        case Some(n) => Some(Band(n + 1, None))
        case None => None
      else
        var k := DigitSpan(body);
        if |body[k..]| >= 2 && body[k..][..2] == ".." then
          match (ParseNat(body[..k]), ParseNat(body[k + 2..]))
          case (Some(a), Some(b)) => Some(Band(a, Some(b)))
          case _ => None
        else None
  }

  /** The qualifier that denotes a band (an unbounded band needs a lower end above 0). */
  function ShowRange(b: Band): string
    requires b.hi.None? ==> b.lo > 0
  {
    match b.hi
    case None => PREFIX + ">" + ShowNat(b.lo - 1)
    case Some(h) => PREFIX + ShowNat(b.lo) + ".." + ShowNat(h)
  }

  lemma ParseShowRange(b: Band)
    requires b.hi.None? ==> b.lo > 0
    ensures ParseRange(ShowRange(b)) == Some(b)
  {
    var q := ShowRange(b);
    assert q[..|PREFIX|] == PREFIX;
    var body := q[|PREFIX|..];
    match b.hi
    case None =>
      assert body == ">" + ShowNat(b.lo - 1);
      assert body[1..] == ShowNat(b.lo - 1);
      ParseShowNat(b.lo - 1);
    case Some(h) =>
      var d := ShowNat(b.lo);
      assert body == d + (".." + ShowNat(h));
      DigitSpanOfNumeral(d, ".." + ShowNat(h));
      assert body[..|d|] == d;
      assert body[|d|..] == ".." + ShowNat(h);
      assert body[|d| + 2..] == ShowNat(h);
      ParseShowNat(b.lo);
      ParseShowNat(h);
  }

  // ---------------------------------------------------------------------
  // Coverage
  // ---------------------------------------------------------------------

  /**
   * Bands that tile the star counts from `bs[0].lo` upwards: each is
   * non-empty, each upper end is one less than the next lower end, and only
   * the last is unbounded.
   */
  predicate Tiling(bs: seq<Band>) {
    && bs != []
    && bs[|bs| - 1].hi.None?
    && forall i :: 0 <= i < |bs| - 1 ==>
         bs[i].hi.Some? && bs[i].lo <= bs[i].hi.value && bs[i].hi.value + 1 == bs[i + 1].lo
  }

  lemma {:induction false} TilingAscends(bs: seq<Band>, i: int, j: int)
    requires Tiling(bs)
    requires 0 <= i < j < |bs|
    ensures bs[i].hi.Some? && bs[i].hi.value < bs[j].lo
  {
    if j > i + 1 {
      TilingAscends(bs, i, j - 1);
    }
  }

  lemma {:induction false} TilingCovers(bs: seq<Band>, n: int)
    requires Tiling(bs)
    ensures n >= bs[0].lo <==> exists i :: 0 <= i < |bs| && Contains(bs[i], n)
    ensures forall i, j :: 0 <= i < |bs| && 0 <= j < |bs| && Contains(bs[i], n) && Contains(bs[j], n) ==> i == j
  {
    if |bs| > 1 {
      var tail := bs[1..];
      assert Tiling(tail) by {
        forall i | 0 <= i < |tail| - 1
          ensures tail[i].hi.Some? && tail[i].lo <= tail[i].hi.value && tail[i].hi.value + 1 == tail[i + 1].lo
        {
          assert tail[i] == bs[i + 1] && tail[i + 1] == bs[i + 2];
        }
      }
      TilingCovers(tail, n);
      if n > bs[0].hi.value {
        var k :| 0 <= k < |tail| && Contains(tail[k], n);
        assert Contains(bs[k + 1], n);
      }
      forall i | 0 < i < |bs| ensures !(Contains(bs[0], n) && Contains(bs[i], n)) {
        TilingAscends(bs, 0, i);
      }
      forall i, j | 0 < i < |bs| && 0 < j < |bs| && Contains(bs[i], n) && Contains(bs[j], n)
        ensures i == j
      {
        assert tail[i - 1] == bs[i] && tail[j - 1] == bs[j];
      }
      forall i | 0 <= i < |bs| && Contains(bs[i], n) ensures n >= bs[0].lo {
        if i > 0 { TilingAscends(bs, 0, i); }
      }
    } else {
      assert Contains(bs[0], n) <==> n >= bs[0].lo;
    }
  }

  // One lemma per qualifier: evaluating the numerals of all ten at once is
  // far costlier for the solver than evaluating them one at a time.
  lemma ShowBand0() ensures STAR_RANGES[0] == ShowRange(BANDS[0]) {}
  lemma ShowBand1() ensures STAR_RANGES[1] == ShowRange(BANDS[1]) {}
  lemma ShowBand2() ensures STAR_RANGES[2] == ShowRange(BANDS[2]) {}
  lemma ShowBand3() ensures STAR_RANGES[3] == ShowRange(BANDS[3]) {}
  lemma ShowBand4() ensures STAR_RANGES[4] == ShowRange(BANDS[4]) {}
  lemma ShowBand5() ensures STAR_RANGES[5] == ShowRange(BANDS[5]) {}
  lemma ShowBand6() ensures STAR_RANGES[6] == ShowRange(BANDS[6]) {}
  lemma ShowBand7() ensures STAR_RANGES[7] == ShowRange(BANDS[7]) {}
  lemma ShowBand8() ensures STAR_RANGES[8] == ShowRange(BANDS[8]) {}
  lemma ShowBand9() ensures STAR_RANGES[9] == ShowRange(BANDS[9]) {}

  /** The qualifiers of STAR_RANGES are exactly the numerals of BANDS. */
  lemma StarRangesShowBands()
    ensures |STAR_RANGES| == |BANDS|
    ensures forall i :: 0 <= i < |BANDS| ==> (BANDS[i].hi.None? ==> BANDS[i].lo > 0)
    ensures forall i :: 0 <= i < |BANDS| ==> STAR_RANGES[i] == ShowRange(BANDS[i])
  {
    ShowBand0(); ShowBand1(); ShowBand2(); ShowBand3(); ShowBand4();
    ShowBand5(); ShowBand6(); ShowBand7(); ShowBand8(); ShowBand9();
  }

  /** Every qualifier of STAR_RANGES parses to the band listed beside it. */
  lemma StarRangesParse()
    ensures |STAR_RANGES| == |BANDS|
    ensures forall i :: 0 <= i < |STAR_RANGES| ==> ParseRange(STAR_RANGES[i]) == Some(BANDS[i])
  {
    StarRangesShowBands();
    forall i | 0 <= i < |STAR_RANGES| ensures ParseRange(STAR_RANGES[i]) == Some(BANDS[i]) {
      ParseShowRange(BANDS[i]);
    }
  }

  /**
   * Every star count from 10 upwards falls in exactly one band of the table,
   * no count below 10 falls in any, and the bands ascend without overlap.
   */
  lemma StarRangesPartition(n: int)
    ensures Tiling(BANDS) && BANDS[0].lo == 10
    ensures n >= 10 <==> exists i :: 0 <= i < |BANDS| && Contains(BANDS[i], n)
    ensures forall i, j :: 0 <= i < |BANDS| && 0 <= j < |BANDS| && Contains(BANDS[i], n) && Contains(BANDS[j], n) ==> i == j
    ensures forall i, j :: 0 <= i < j < |BANDS| ==> BANDS[i].hi.Some? && BANDS[i].hi.value < BANDS[j].lo
  {
    assert Tiling(BANDS);
    TilingCovers(BANDS, n);
    forall i, j | 0 <= i < j < |BANDS| ensures BANDS[i].hi.Some? && BANDS[i].hi.value < BANDS[j].lo {
      TilingAscends(BANDS, i, j);
    }
  }
}
