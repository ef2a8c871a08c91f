/**
 Payee resolution with seven digits, rounded down: how far truncation stays below exact
 resolution, that minimums are respected, and when the reported total is the sum itself.
 */
module PayeeRounding {
  import opened Wrappers
  import opened Payees

  // ---------- cutting after seven digits

  function Trunc7(x: real): real {
    if x >= 0.0 then (x * 10000000.0).Floor as real / 10000000.0 else -((-x * 10000000.0).Floor as real / 10000000.0)
  }

  /** Precision 7, rounding mode Down. */
  const SevenDown: Cut := (x: real) => Trunc7(x)

  /** No rounding at all. */
  const Exactly: Cut := (x: real) => x

  /** Cutting a non-negative number loses less than one unit of 10^-7. */
  ghost predicate Below(cut: Cut) {
    forall x: real {:trigger Round(cut, x)} :: x >= 0.0 ==> 0.0 <= Round(cut, x) <= x && x - Round(cut, x) <= 0.0000001
  }

  ghost predicate Monotone(cut: Cut) {
    forall x: real, y: real {:trigger Round(cut, x), Round(cut, y)} :: x <= y ==> Round(cut, x) <= Round(cut, y)
  }

  /** A number that cutting does not change. */
  predicate Representable(cut: Cut, x: real) {
    Round(cut, x) == x
  }

  predicate CutIsRepresentable(cut: Cut, x: real) {
    Representable(cut, Round(cut, x))
  }

  predicate ClosedUnder(cut: Cut, a: real, b: real) {
    Representable(cut, a) ==> (Representable(cut, a + b) <==> Representable(cut, b))
  }

  /** Cut numbers are representable, and representable numbers are closed under addition. */
  ghost predicate OnGrid(cut: Cut) {
    (forall x: real :: CutIsRepresentable(cut, x)) && (forall a: real, b: real :: ClosedUnder(cut, a, b))
  }

  lemma Trunc7Bounds(x: real)
    ensures x >= 0.0 ==> 0.0 <= Trunc7(x) <= x && x - Trunc7(x) < 0.0000001
    ensures x < 0.0 ==> x <= Trunc7(x) <= 0.0
  {
  }

  lemma FloorMonotone(x: real, y: real)
    requires x <= y
    ensures x.Floor <= y.Floor
  {
  }

  lemma Trunc7Monotone(x: real, y: real)
    requires x <= y
    ensures Trunc7(x) <= Trunc7(y)
  {
    FloorMonotone(x * 10000000.0, y * 10000000.0);
    FloorMonotone(-y * 10000000.0, -x * 10000000.0);
    Trunc7Bounds(x);
    Trunc7Bounds(y);
  }

  predicate SevenDigits(x: real) {
    (x * 10000000.0).Floor as real == x * 10000000.0
  }

  lemma FloorPlus(x: real, n: int)
    ensures (x + n as real).Floor == x.Floor + n
  {
  }

  lemma SevenDigitsAdd(a: real, b: real)
    requires SevenDigits(a)
    ensures SevenDigits(a + b) <==> SevenDigits(b)
  {
    var n := (a * 10000000.0).Floor;
    assert (a + b) * 10000000.0 == b * 10000000.0 + n as real;
    FloorPlus(b * 10000000.0, n);
  }

  lemma WholeIsSevenDigits(n: int)
    ensures SevenDigits(n as real / 10000000.0)
  {
  }

  lemma NegatedDigits(x: real)
    requires SevenDigits(x)
    ensures SevenDigits(-x)
  {
    var n := (x * 10000000.0).Floor;
    assert -x == (-n) as real / 10000000.0;
    WholeIsSevenDigits(-n);
  }

  lemma Trunc7Keeps(x: real)
    ensures Trunc7(x) == x <==> SevenDigits(x)
    ensures SevenDigits(Trunc7(x))
  {
    if x >= 0.0 {
      WholeIsSevenDigits((x * 10000000.0).Floor);
    } else {
      WholeIsSevenDigits((-x * 10000000.0).Floor);
      NegatedDigits(-Trunc7(x));
      if SevenDigits(x) {
        NegatedDigits(x);
      }
    }
  }

  /** The rounding the program sets has all three properties. */
  lemma SevenDownCuts()
    ensures Below(SevenDown) && Monotone(SevenDown) && OnGrid(SevenDown)
  {
    forall x: real
      ensures Round(SevenDown, x) == Trunc7(x)
    {
    }
    forall x: real {
      Trunc7Bounds(x);
    }
    forall x: real, y: real | x <= y {
      Trunc7Monotone(x, y);
    }
    forall x: real
      ensures CutIsRepresentable(SevenDown, x)
    {
      Trunc7Keeps(x);
      Trunc7Keeps(Trunc7(x));
    }
    forall a: real, b: real
      ensures ClosedUnder(SevenDown, a, b)
    {
      Trunc7Keeps(a);
      Trunc7Keeps(b);
      Trunc7Keeps(a + b);
      if SevenDigits(a) {
        SevenDigitsAdd(a, b);
      }
    }
  }

  // ---------- minimums

  /** A newly resolved percentage is never below its minimum, as far as the precision can tell. */
  lemma MinimumRespected(cut: Cut, ps: seq<Payee>, license: real, i: nat)
    requires Monotone(cut)
    requires i < |ps| && !ps[i].kind.FlatFee? && !ps[i].resolved && ps[i].min.Some?
    ensures Resolved(cut, ps, license)[i].amount >= Round(cut, ps[i].min.value)
  {
  }

  // ---------- one amount

  /** Percentages, fees and given amounts are not negative. */
  ghost predicate NonNegative(p: Payee) {
    p.percentage >= 0.0 && (p.resolved || p.kind.FlatFee? ==> p.amount >= 0.0)
  }

  predicate NewPercentage(p: Payee) {
    !p.kind.FlatFee? && !p.resolved
  }

  lemma Product(p: real, b: real, b': real)
    requires p >= 0.0 && 0.0 <= b <= b'
    ensures 0.0 <= b * p <= b' * p && b' * p - b * p == (b' - b) * p
  {
  }

  lemma GrossGap(p: Payee, b: real, b': real)
    requires p.percentage >= 0.0 && 0.0 <= b <= b'
    ensures 0.0 <= Gross(p, b) <= Gross(p, b')
    ensures Gross(p, b') - Gross(p, b) <= (b' - b) * p.percentage
  {
  }

  /** The error of one amount: the error of its base, taken p times, and the cut. */
  lemma AmountGap(cut: Cut, p: Payee, b: real, b': real)
    requires Below(cut) && NonNegative(p) && !p.kind.FlatFee? && 0.0 <= b <= b'
    ensures 0.0 <= Amount(cut, p, b) <= Amount(Exactly, p, b')
    ensures p.resolved ==> Amount(Exactly, p, b') == Amount(cut, p, b)
    ensures !p.resolved ==> Amount(Exactly, p, b') - Amount(cut, p, b) <= (b' - b) * p.percentage + 0.0000001
  {
    GrossGap(p, b, b');
    assert Round(Exactly, Gross(p, b')) == Gross(p, b');
  }

  // ---------- the whole resolution

  /** The error after one payee, given the error before it: E' = (1 + p) * E + 10^-7 for a new percentage. */
  function Worsen(p: Payee, e: real): real {
    if NewPercentage(p) then (1.0 + p.percentage) * e + 0.0000001 else e
  }

  /** The error after the first pass. */
  function WorstEarly(ps: seq<Payee>, e: real): real {
    if ps == [] then e
    else
      var before := WorstEarly(ps[..|ps| - 1], e);
      if IsEarly(ps[|ps| - 1]) then Worsen(ps[|ps| - 1], before) else before
  }

  /** The error after a pass over the payees of one kind. */
  function WorstOf(kind: Kind, ps: seq<Payee>, e: real): real {
    if ps == [] then e
    else
      var before := WorstOf(kind, ps[..|ps| - 1], e);
      if ps[|ps| - 1].kind == kind then Worsen(ps[|ps| - 1], before) else before
  }

  lemma WorsenBound(p: Payee, e: real, baseGap: real, gap: real, amountGap: real)
    requires NonNegative(p) && NewPercentage(p) && 0.0 <= baseGap <= gap <= e
    requires amountGap <= baseGap * p.percentage + 0.0000001
    ensures gap + amountGap <= Worsen(p, gap) <= Worsen(p, e)
  {
    Product(p.percentage, baseGap, gap);
    Product(1.0 + p.percentage, gap, e);
    assert gap * (1.0 + p.percentage) == gap + gap * p.percentage;
  }

  /** One more amount: the gap after it is at most Worsen of the gap before it. */
  lemma NextGap(cut: Cut, p: Payee, b: real, b': real, gap: real, e: real)
    requires Below(cut) && NonNegative(p) && !p.kind.FlatFee?
    requires 0.0 <= b <= b' && b' - b <= gap <= e
    ensures 0.0 <= Amount(cut, p, b) <= Amount(Exactly, p, b')
    ensures gap + Amount(Exactly, p, b') - Amount(cut, p, b) <= Worsen(p, gap)
    ensures gap + Amount(Exactly, p, b') - Amount(cut, p, b) <= Worsen(p, e)
  {
    AmountGap(cut, p, b, b');
    if NewPercentage(p) {
      WorsenBound(p, e, b' - b, gap, Amount(Exactly, p, b') - Amount(cut, p, b));
    }
  }

  lemma {:induction false} EarlyGap(cut: Cut, ps: seq<Payee>, license: real)
    requires Below(cut) && license >= 0.0 && forall i :: 0 <= i < |ps| ==> NonNegative(ps[i])
    ensures 0.0 <= EarlyTotal(cut, ps, license) <= EarlyTotal(Exactly, ps, license)
    ensures 0.0 <= EarlyTaxable(cut, ps, license) <= EarlyTaxable(Exactly, ps, license)
    ensures EarlyTaxable(Exactly, ps, license) - EarlyTaxable(cut, ps, license) <=
            EarlyTotal(Exactly, ps, license) - EarlyTotal(cut, ps, license) <= WorstEarly(ps, 0.0)
  {
    if ps != [] {
      var n := |ps| - 1;
      EarlyGap(cut, ps[..n], license);
      var c, x := EarlyTotal(cut, ps[..n], license), EarlyTotal(Exactly, ps[..n], license);
      var p := ps[n];
      if p.kind.PercentOfLicense? {
        NextGap(cut, p, license, license, x - c, WorstEarly(ps[..n], 0.0));
      } else if p.kind.PercentOfCumulative? {
        NextGap(cut, p, c, x, x - c, WorstEarly(ps[..n], 0.0));
      }
    }
  }

  lemma {:induction false} LateGap(cut: Cut, kind: Kind, ps: seq<Payee>, b: real, b': real, gap: real, e: real)
    requires Below(cut) && !kind.FlatFee? && forall i :: 0 <= i < |ps| ==> NonNegative(ps[i])
    requires 0.0 <= b <= b' && b' - b <= gap <= e
    ensures 0.0 <= Sum(ps, AmountOfKind(cut, kind, b)) <= Sum(ps, AmountOfKind(Exactly, kind, b'))
    ensures gap + Sum(ps, AmountOfKind(Exactly, kind, b')) - Sum(ps, AmountOfKind(cut, kind, b)) <= WorstOf(kind, ps, e)
  {
    if ps != [] {
      var n := |ps| - 1;
      LateGap(cut, kind, ps[..n], b, b', gap, e);
      if ps[n].kind == kind {
        var c, x := Sum(ps[..n], AmountOfKind(cut, kind, b)), Sum(ps[..n], AmountOfKind(Exactly, kind, b'));
        NextGap(cut, ps[n], b, b', gap + x - c, WorstOf(kind, ps[..n], e));
      }
    }
  }

  lemma {:induction false} TaxableGap(cut: Cut, ps: seq<Payee>, b: real, b': real)
    requires Below(cut) && 0.0 <= b <= b' && forall i :: 0 <= i < |ps| ==> NonNegative(ps[i])
    ensures 0.0 <= Sum(ps, TaxableOfTotal(cut, b)) <= Sum(ps, TaxableOfTotal(Exactly, b'))
    ensures Sum(ps, TaxableOfTotal(Exactly, b')) - Sum(ps, TaxableOfTotal(cut, b)) <=
            Sum(ps, AmountOfKind(Exactly, PercentOfTotal, b')) - Sum(ps, AmountOfKind(cut, PercentOfTotal, b))
  {
    if ps != [] {
      var n := |ps| - 1;
      TaxableGap(cut, ps[..n], b, b');
      if ps[n].kind == PercentOfTotal {
        AmountGap(cut, ps[n], b, b');
      }
    }
  }

  /** The sum of the amounts of an exact resolution. */
  function ExactTotal(ps: seq<Payee>, license: real): real {
    Sum(Resolved(Exactly, ps, license), AmountOf)
  }

  /** The error after all three passes. */
  function Worst(ps: seq<Payee>): real {
    WorstOf(Tax, ps, WorstOf(PercentOfTotal, ps, WorstEarly(ps, 0.0)))
  }

  /**
   The resolved amounts never add up to more than the exact ones, and the shortfall stays within
   the error that grows by E' = (1 + p) * E + 10^-7 per new percentage, in resolution order. The
   reported total falls short by at most 10^-7 more.
   */
  lemma RoundingBound(cut: Cut, ps: seq<Payee>, license: real)
    requires Below(cut) && license >= 0.0 && forall i :: 0 <= i < |ps| ==> NonNegative(ps[i])
    ensures 0.0 <= Sum(Resolved(cut, ps, license), AmountOf) <= ExactTotal(ps, license)
    ensures Total(cut, ps, license) <= ExactTotal(ps, license)
    ensures ExactTotal(ps, license) - Sum(Resolved(cut, ps, license), AmountOf) <= Worst(ps)
    ensures ExactTotal(ps, license) - Total(cut, ps, license) <= Worst(ps) + 0.0000001
  {
    Conservation(cut, ps, license);
    Conservation(Exactly, ps, license);
    EarlyGap(cut, ps, license);
    var c, x := EarlyTotal(cut, ps, license), EarlyTotal(Exactly, ps, license);
    LateGap(cut, PercentOfTotal, ps, c, x, x - c, WorstEarly(ps, 0.0));
    TaxableGap(cut, ps, c, x);
    var gap := x - c + Sum(ps, AmountOfKind(Exactly, PercentOfTotal, x))
               - Sum(ps, AmountOfKind(cut, PercentOfTotal, c));
    LateGap(cut, Tax, ps, TaxBase(cut, ps, license), TaxBase(Exactly, ps, license), gap,
            WorstOf(PercentOfTotal, ps, WorstEarly(ps, 0.0)));
    assert Total(cut, ps, license) <= Sum(Resolved(cut, ps, license), AmountOf);
  }

  // ---------- when the reported total is the sum itself

  /** An amount the caller gives: a flat fee, or one resolved before. */
  const GivenOf: Payee -> real := (p: Payee) => if p.kind.FlatFee? || p.resolved then p.amount else 0.0

  lemma {:induction false} NewAmountsAreCut(cut: Cut, ps: seq<Payee>, rs: seq<Payee>)
    requires OnGrid(cut) && |rs| == |ps|
    requires forall i :: 0 <= i < |ps| ==>
               if ps[i].kind.FlatFee? || ps[i].resolved then rs[i].amount == ps[i].amount
               else Representable(cut, rs[i].amount)
    ensures Representable(cut, Sum(rs, AmountOf)) <==> Representable(cut, Sum(ps, GivenOf))
  {
    NewAmountsDiffer(cut, ps, rs);
    assert ClosedUnder(cut, Sum(rs, AmountOf) - Sum(ps, GivenOf), Sum(ps, GivenOf));
  }

  lemma {:induction false} NewAmountsDiffer(cut: Cut, ps: seq<Payee>, rs: seq<Payee>)
    requires OnGrid(cut) && |rs| == |ps|
    requires forall i :: 0 <= i < |ps| ==>
               if ps[i].kind.FlatFee? || ps[i].resolved then rs[i].amount == ps[i].amount
               else Representable(cut, rs[i].amount)
    ensures Representable(cut, Sum(rs, AmountOf) - Sum(ps, GivenOf))
  {
    if ps == [] {
      ZeroIsOnGrid(cut);
    } else {
      var n := |ps| - 1;
      NewAmountsDiffer(cut, ps[..n], rs[..n]);
      var d := Sum(rs[..n], AmountOf) - Sum(ps[..n], GivenOf);
      if ps[n].kind.FlatFee? || ps[n].resolved {
        assert Sum(rs, AmountOf) - Sum(ps, GivenOf) == d;
      } else {
        assert Sum(rs, AmountOf) - Sum(ps, GivenOf) == d + rs[n].amount;
        assert ClosedUnder(cut, d, rs[n].amount);
      }
    }
  }

  lemma ZeroIsOnGrid(cut: Cut)
    requires OnGrid(cut)
    ensures Representable(cut, 0.0)
  {
    assert CutIsRepresentable(cut, 0.0);
    assert ClosedUnder(cut, Round(cut, 0.0), 0.0);
  }

  /**
   The reported total is exactly the sum of the resolved amounts if and only if the amounts the
   caller gave add up to a representable number.
   */
  lemma TotalIsSumIff(cut: Cut, ps: seq<Payee>, license: real)
    requires OnGrid(cut)
    ensures Total(cut, ps, license) == Sum(Resolved(cut, ps, license), AmountOf) <==>
            Representable(cut, Sum(ps, GivenOf))
  {
    var rs := Resolved(cut, ps, license);
    forall i | 0 <= i < |ps| && NewPercentage(ps[i])
      ensures Representable(cut, rs[i].amount)
    {
      var base := match ps[i].kind
        case PercentOfLicense => license
        case PercentOfCumulative => EarlyTotal(cut, ps[..i], license)
        case PercentOfTotal => EarlyTotal(cut, ps, license)
        case _ => TaxBase(cut, ps, license);
      assert CutIsRepresentable(cut, Gross(ps[i], base));
    }
    NewAmountsAreCut(cut, ps, rs);
  }

  /** All of this at seven digits rounded down, the precision the program sets. */
  lemma ProgramTotals(ps: seq<Payee>, license: real)
    requires license >= 0.0 && forall i :: 0 <= i < |ps| ==> NonNegative(ps[i])
    ensures 0.0 <= ExactTotal(ps, license) - Total(SevenDown, ps, license) <= Worst(ps) + 0.0000001
    ensures forall i :: 0 <= i < |ps| && NewPercentage(ps[i]) && ps[i].min.Some? ==>
              Resolved(SevenDown, ps, license)[i].amount >= Trunc7(ps[i].min.value)
    ensures Total(SevenDown, ps, license) == Sum(Resolved(SevenDown, ps, license), AmountOf) <==>
            Trunc7(Sum(ps, GivenOf)) == Sum(ps, GivenOf)
  {
    SevenDownCuts();
    RoundingBound(SevenDown, ps, license);
    TotalIsSumIff(SevenDown, ps, license);
    forall i | 0 <= i < |ps| && NewPercentage(ps[i]) && ps[i].min.Some?
      ensures Resolved(SevenDown, ps, license)[i].amount >= Trunc7(ps[i].min.value)
    {
      MinimumRespected(SevenDown, ps, license, i);
    }
  }

  /** It can fail: a flat fee with an eighth digit disappears from the total. */
  lemma EightDigitFee(p: Payee)
    requires p.kind.FlatFee? && p.amount == 0.00000005
    ensures Total(SevenDown, [p], 0.0) == 0.0 && Sum(Resolved(SevenDown, [p], 0.0), AmountOf) == 0.00000005
  {
    var rs := Resolved(SevenDown, [p], 0.0);
    assert rs[..0] == [] && |rs| == 1;
    assert Sum(rs, AmountOf) == 0.00000005;
    assert Round(SevenDown, Sum(rs, AmountOf)) == Trunc7(0.00000005) == 0.0;
  }
}
