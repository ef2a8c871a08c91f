/**
 Resolution of payee amounts: flat fees, percentages of the licence, of the running total and
 of the pre-tax total, and taxes. Amounts are exact decimals; newly resolved percentages and
 the total are cut to the precision set beforehand. What is proved here holds for every way of
 cutting; module PayeeRounding is about the seven digits that the program uses.
 */
module Payees {
  import opened Wrappers

  datatype Kind = FlatFee | PercentOfLicense | PercentOfCumulative | PercentOfTotal | Tax

  datatype Payee = Payee(id: nat, kind: Kind, resolved: bool, amount: real, percentage: real,
                         min: Option<real>, taxExempt: bool)

  /** How a decimal is cut to its precision. */
  type Cut = real -> real

  function Round(cut: Cut, x: real): real {
    cut(x)
  }

  function AtLeast(min: Option<real>, x: real): real {
    if min.Some? && min.value > x then min.value else x
  }

  /** The amount before it is cut. */
  function Gross(p: Payee, base: real): real {
    AtLeast(p.min, base * p.percentage)
  }

  /** The amount of a percentage payee over a given base; a resolved one keeps its amount. */
  function Amount(cut: Cut, p: Payee, base: real): real {
    if p.resolved then p.amount else Round(cut, Gross(p, base))
  }

  function Settle(cut: Cut, p: Payee, base: real): Payee {
    p.(amount := Amount(cut, p, base), resolved := true)
  }

  predicate IsEarly(p: Payee) {
    !p.kind.PercentOfTotal? && !p.kind.Tax?
  }

  // ---------- the specification

  /** What a payee adds to the total in the first pass, over the total before it. */
  function EarlyAmount(cut: Cut, p: Payee, license: real, before: real): real {
    match p.kind
    case FlatFee => p.amount
    case PercentOfLicense => Amount(cut, p, license)
    case PercentOfCumulative => Amount(cut, p, before)
    case _ => 0.0
  }

  /** The total of the first pass. */
  function EarlyTotal(cut: Cut, ps: seq<Payee>, license: real): real {
    if ps == [] then 0.0
    else
      var before := EarlyTotal(cut, ps[..|ps| - 1], license);
      before + EarlyAmount(cut, ps[|ps| - 1], license, before)
  }

  /** The part of the first pass that is taxable. */
  function EarlyTaxable(cut: Cut, ps: seq<Payee>, license: real): real {
    if ps == [] then 0.0
    else
      var p := ps[|ps| - 1];
      EarlyTaxable(cut, ps[..|ps| - 1], license) +
      if p.taxExempt then 0.0 else EarlyAmount(cut, p, license, EarlyTotal(cut, ps[..|ps| - 1], license))
  }

  function Sum(ps: seq<Payee>, f: Payee -> real): real {
    if ps == [] then 0.0 else Sum(ps[..|ps| - 1], f) + f(ps[|ps| - 1])
  }

  function AmountOfKind(cut: Cut, kind: Kind, base: real): Payee -> real {
    (p: Payee) => if p.kind == kind then Amount(cut, p, base) else 0.0
  }

  function TaxableOfTotal(cut: Cut, base: real): Payee -> real {
    (p: Payee) => if p.kind.PercentOfTotal? && !p.taxExempt then Amount(cut, p, base) else 0.0
  }

  /** The base of every tax: all taxable amounts that are not taxes themselves. */
  function TaxBase(cut: Cut, ps: seq<Payee>, license: real): real {
    EarlyTaxable(cut, ps, license) + Sum(ps, TaxableOfTotal(cut, EarlyTotal(cut, ps, license)))
  }

  function ResolvedAt(cut: Cut, ps: seq<Payee>, license: real, i: nat): Payee
    requires i < |ps|
  {
    match ps[i].kind
    case FlatFee => ps[i].(resolved := true)
    case PercentOfLicense => Settle(cut, ps[i], license)
    case PercentOfCumulative => Settle(cut, ps[i], EarlyTotal(cut, ps[..i], license))
    case PercentOfTotal => Settle(cut, ps[i], EarlyTotal(cut, ps, license))
    case Tax => Settle(cut, ps[i], TaxBase(cut, ps, license))
  }

  /** Every payee with its resolved amount, each over its own base. */
  function Resolved(cut: Cut, ps: seq<Payee>, license: real): seq<Payee> {
    seq(|ps|, i requires 0 <= i < |ps| => ResolvedAt(cut, ps, license, i))
  }

  const AmountOf: Payee -> real := (p: Payee) => p.amount

  /** The total that is reported: the sum of all resolved amounts, cut after seven digits. */
  function Total(cut: Cut, ps: seq<Payee>, license: real): real {
    Round(cut, Sum(Resolved(cut, ps, license), AmountOf))
  }

  // ---------- conservation

  /** The sum over a list of payees built in three parts. */
  lemma {:induction false} SumByKinds(cut: Cut, ps: seq<Payee>, license: real, totalBase: real, taxBase: real,
                                      rs: seq<Payee>)
    requires |rs| == |ps|
    requires forall i :: 0 <= i < |ps| ==>
      rs[i].amount == match ps[i].kind
                      case PercentOfTotal => Amount(cut, ps[i], totalBase)
                      case Tax => Amount(cut, ps[i], taxBase)
                      case _ => EarlyAmount(cut, ps[i], license, EarlyTotal(cut, ps[..i], license))
    ensures Sum(rs, AmountOf) ==
            EarlyTotal(cut, ps, license) + Sum(ps, AmountOfKind(cut, PercentOfTotal, totalBase))
                                         + Sum(ps, AmountOfKind(cut, Tax, taxBase))
  {
    if ps != [] {
      var n := |ps| - 1;
      forall i | 0 <= i < n
        ensures ps[..n][..i] == ps[..i]
      {
      }
      SumByKinds(cut, ps[..n], license, totalBase, taxBase, rs[..n]);
    }
  }

  /** The computed total is the sum of the resolved amounts, each payee counted once. */
  lemma Conservation(cut: Cut, ps: seq<Payee>, license: real)
    ensures Sum(Resolved(cut, ps, license), AmountOf) ==
            EarlyTotal(cut, ps, license) + Sum(ps, AmountOfKind(cut, PercentOfTotal, EarlyTotal(cut, ps, license)))
                                    + Sum(ps, AmountOfKind(cut, Tax, TaxBase(cut, ps, license)))
  {
    SumByKinds(cut, ps, license, EarlyTotal(cut, ps, license), TaxBase(cut, ps, license), Resolved(cut, ps, license));
  }

  const TaxableOf: Payee -> real := (p: Payee) => if p.kind.Tax? || p.taxExempt then 0.0 else p.amount

  lemma {:induction false} TaxableByKinds(cut: Cut, ps: seq<Payee>, license: real, totalBase: real, rs: seq<Payee>)
    requires |rs| == |ps|
    requires forall i :: 0 <= i < |ps| ==> rs[i].kind == ps[i].kind && rs[i].taxExempt == ps[i].taxExempt
    requires forall i :: 0 <= i < |ps| && !ps[i].kind.Tax? ==>
      rs[i].amount == match ps[i].kind
                      case PercentOfTotal => Amount(cut, ps[i], totalBase)
                      case _ => EarlyAmount(cut, ps[i], license, EarlyTotal(cut, ps[..i], license))
    ensures Sum(rs, TaxableOf) == EarlyTaxable(cut, ps, license) + Sum(ps, TaxableOfTotal(cut, totalBase))
  {
    if ps != [] {
      var n := |ps| - 1;
      forall i | 0 <= i < n
        ensures ps[..n][..i] == ps[..i]
      {
      }
      TaxableByKinds(cut, ps[..n], license, totalBase, rs[..n]);
    }
  }

  lemma TaxBaseIsTaxables(cut: Cut, ps: seq<Payee>, license: real)
    ensures TaxBase(cut, ps, license) == Sum(Resolved(cut, ps, license), TaxableOf)
  {
    TaxableByKinds(cut, ps, license, EarlyTotal(cut, ps, license), Resolved(cut, ps, license));
  }

  // ---------- what each payee gets

  const EarlyOf: Payee -> real := (p: Payee) => if p.kind.PercentOfTotal? || p.kind.Tax? then 0.0 else p.amount

  /** The running total is the sum of the amounts resolved before, and the pre-tax total the sum of all early ones. */
  lemma {:induction false} EarlyTotalIsSum(cut: Cut, ps: seq<Payee>, license: real, i: nat)
    requires i <= |ps|
    ensures EarlyTotal(cut, ps[..i], license) == Sum(Resolved(cut, ps, license)[..i], EarlyOf)
  {
    if i > 0 {
      var rs := Resolved(cut, ps, license);
      EarlyTotalIsSum(cut, ps, license, i - 1);
      assert ps[..i][..i - 1] == ps[..i - 1] && rs[..i][..i - 1] == rs[..i - 1];
      assert ps[..i][i - 1] == ps[i - 1] && rs[..i][i - 1] == rs[i - 1];
    }
  }

  /** A flat fee and an amount resolved before stay as they are; of a payee nothing but the amount changes. */
  lemma GivenAmount(cut: Cut, ps: seq<Payee>, license: real, i: nat)
    requires i < |ps|
    ensures var r := Resolved(cut, ps, license)[i];
      && r == ps[i].(amount := r.amount, resolved := true)
      && (ps[i].kind.FlatFee? || ps[i].resolved ==> r.amount == ps[i].amount)
  {
  }

  /** The percentage of a base, or the minimum if that is more, cut to its precision. */
  predicate Charges(cut: Cut, p: Payee, base: real, amount: real) {
    var gross := base * p.percentage;
    amount == Round(cut, if p.min.Some? && p.min.value > gross then p.min.value else gross)
  }

  lemma NewAmount(cut: Cut, p: Payee, base: real)
    requires !p.resolved
    ensures Charges(cut, p, base, Amount(cut, p, base))
  {
    var gross := base * p.percentage;
    AmountFromGross(cut, p, base, if p.min.Some? && p.min.value > gross then p.min.value else gross);
  }

  /** A percentage of the licence. */
  lemma LicenseAmount(cut: Cut, ps: seq<Payee>, license: real, i: nat)
    requires i < |ps| && ps[i].kind.PercentOfLicense? && !ps[i].resolved
    ensures Charges(cut, ps[i], license, Resolved(cut, ps, license)[i].amount)
  {
    NewAmount(cut, ps[i], license);
  }

  /** A percentage of the amounts of the early payees before it. */
  lemma CumulativeAmount(cut: Cut, ps: seq<Payee>, license: real, i: nat)
    requires i < |ps| && ps[i].kind.PercentOfCumulative? && !ps[i].resolved
    ensures Charges(cut, ps[i], Sum(Resolved(cut, ps, license)[..i], EarlyOf), Resolved(cut, ps, license)[i].amount)
  {
    EarlyTotalIsSum(cut, ps, license, i);
    NewAmount(cut, ps[i], Sum(Resolved(cut, ps, license)[..i], EarlyOf));
  }

  /** A percentage of the amounts of all early payees, wherever they stand. */
  lemma OfTotalAmount(cut: Cut, ps: seq<Payee>, license: real, i: nat)
    requires i < |ps| && ps[i].kind.PercentOfTotal? && !ps[i].resolved
    ensures Charges(cut, ps[i], Sum(Resolved(cut, ps, license), EarlyOf), Resolved(cut, ps, license)[i].amount)
  {
    EarlyTotalIsSum(cut, ps, license, |ps|);
    assert ps[..|ps|] == ps && Resolved(cut, ps, license)[..|ps|] == Resolved(cut, ps, license);
    NewAmount(cut, ps[i], Sum(Resolved(cut, ps, license), EarlyOf));
  }

  /** A tax is a percentage of the amounts that are neither exempt nor taxes themselves. */
  lemma TaxIsOnTaxables(cut: Cut, ps: seq<Payee>, license: real, i: nat)
    requires i < |ps| && ps[i].kind.Tax? && !ps[i].resolved
    ensures Charges(cut, ps[i], Sum(Resolved(cut, ps, license), TaxableOf), Resolved(cut, ps, license)[i].amount)
  {
    TaxBaseIsTaxables(cut, ps, license);
    NewAmount(cut, ps[i], Sum(Resolved(cut, ps, license), TaxableOf));
  }

  // ---------- idempotence

  /** Resolving a resolved list again, over any licence, changes neither an amount nor the total. */
  lemma Idempotent(cut: Cut, ps: seq<Payee>, license: real, license': real)
    ensures Resolved(cut, Resolved(cut, ps, license), license') == Resolved(cut, ps, license)
    ensures Total(cut, Resolved(cut, ps, license), license') == Total(cut, ps, license)
  {
  }

  // ---------- order

  function Early(ps: seq<Payee>): seq<Payee> {
    if ps == [] then [] else Early(ps[..|ps| - 1]) + if IsEarly(ps[|ps| - 1]) then [ps[|ps| - 1]] else []
  }

  /** The same payees, with the early ones in the same order. */
  ghost predicate Reordered(a: seq<Payee>, b: seq<Payee>) {
    multiset(a) == multiset(b) && Early(a) == Early(b)
  }

  lemma {:induction false} EarlyDecides(cut: Cut, ps: seq<Payee>, license: real)
    ensures EarlyTotal(cut, ps, license) == EarlyTotal(cut, Early(ps), license)
    ensures EarlyTaxable(cut, ps, license) == EarlyTaxable(cut, Early(ps), license)
  {
    if ps != [] {
      var n := |ps| - 1;
      EarlyDecides(cut, ps[..n], license);
      if IsEarly(ps[n]) {
        assert Early(ps)[..|Early(ps)| - 1] == Early(ps[..n]);
      } else {
        assert Early(ps) == Early(ps[..n]);
      }
    }
  }

  lemma {:induction false} SumSplit(a: seq<Payee>, b: seq<Payee>, f: Payee -> real)
    ensures Sum(a + b, f) == Sum(a, f) + Sum(b, f)
  {
    if b == [] {
      assert a + b == a;
    } else {
      assert (a + b)[..|a + b| - 1] == a + b[..|b| - 1];
      SumSplit(a, b[..|b| - 1], f);
    }
  }

  lemma {:induction false} SumPermutes(a: seq<Payee>, b: seq<Payee>, f: Payee -> real)
    requires multiset(a) == multiset(b)
    ensures Sum(a, f) == Sum(b, f)
    decreases |a|
  {
    if a == [] {
      assert |b| == |multiset(b)| == 0;
    } else {
      var n := |a| - 1;
      DropOne(a, n);
      assert a[..n] + a[n + 1..] == a[..n];
      assert a[n] in multiset(b);
      var k :| 0 <= k < |b| && b[k] == a[n];
      DropOne(b, k);
      SumPermutes(a[..n], b[..k] + b[k + 1..], f);
      SumDropOne(b, k, f);
    }
  }

  lemma SumDropOne(s: seq<Payee>, k: nat, f: Payee -> real)
    requires k < |s|
    ensures Sum(s, f) == Sum(s[..k] + s[k + 1..], f) + f(s[k])
  {
    var l, m, r := s[..k], s[..k + 1], s[k + 1..];
    assert Sum(m, f) == Sum(l, f) + f(s[k]) by {
      assert m[..k] == l;
    }
    assert Sum(s, f) == Sum(m, f) + Sum(r, f) by {
      assert s == m + r;
      SumSplit(m, r, f);
    }
    SumSplit(l, r, f);
  }

  lemma DropOne(s: seq<Payee>, k: nat)
    requires k < |s|
    ensures multiset(s[..k] + s[k + 1..]) == multiset(s) - multiset{s[k]}
  {
    assert s == s[..k] + [s[k]] + s[k + 1..];
  }

  lemma SameBases(cut: Cut, a: seq<Payee>, b: seq<Payee>, license: real)
    requires Reordered(a, b)
    ensures EarlyTotal(cut, a, license) == EarlyTotal(cut, b, license)
    ensures TaxBase(cut, a, license) == TaxBase(cut, b, license)
  {
    EarlyDecides(cut, a, license);
    EarlyDecides(cut, b, license);
    SumPermutes(a, b, TaxableOfTotal(cut, EarlyTotal(cut, a, license)));
  }

  lemma {:induction false} EarlyIsEarly(ps: seq<Payee>)
    ensures forall i :: 0 <= i < |Early(ps)| ==> IsEarly(Early(ps)[i])
  {
    if ps != [] {
      EarlyIsEarly(ps[..|ps| - 1]);
    }
  }

  lemma ResolvedAppend(cut: Cut, es: seq<Payee>, p: Payee, license: real)
    requires IsEarly(p) && forall i :: 0 <= i < |es| ==> IsEarly(es[i])
    ensures Resolved(cut, es + [p], license) == Resolved(cut, es, license) + [ResolvedAt(cut, es + [p], license, |es|)]
  {
    var l := es + [p];
    forall i | 0 <= i < |es|
      ensures Resolved(cut, l, license)[i] == Resolved(cut, es, license)[i]
    {
      assert l[..i] == es[..i];
    }
  }

  /** The early payees resolve among themselves: the others do not matter to them. */
  lemma {:induction false} EarlyResolvedAlike(cut: Cut, ps: seq<Payee>, license: real, rs: seq<Payee>)
    requires |rs| == |ps|
    requires forall i :: 0 <= i < |ps| ==> rs[i].kind == ps[i].kind
    requires forall i :: 0 <= i < |ps| && IsEarly(ps[i]) ==> rs[i] == ResolvedAt(cut, ps, license, i)
    ensures Early(rs) == Resolved(cut, Early(ps), license)
  {
    if ps != [] {
      var n := |ps| - 1;
      var es := Early(ps[..n]);
      forall i | 0 <= i < n && IsEarly(ps[i])
        ensures ResolvedAt(cut, ps[..n], license, i) == ResolvedAt(cut, ps, license, i)
      {
        assert ps[..n][..i] == ps[..i];
      }
      EarlyResolvedAlike(cut, ps[..n], license, rs[..n]);
      if IsEarly(ps[n]) {
        EarlyIsEarly(ps[..n]);
        ResolvedAppend(cut, es, ps[n], license);
        EarlyDecides(cut, ps[..n], license);
        assert (es + [ps[n]])[..|es|] == es;
        assert Early(ps) == es + [ps[n]];
        assert Early(rs) == Early(rs[..n]) + [rs[n]];
      } else {
        assert Early(ps) == es && Early(rs) == Early(rs[..n]);
      }
    }
  }

  /**
   Moving percent-of-total and tax payees anywhere changes nothing: equal payees of these kinds
   resolve to the same amount, the early payees resolve as before, and so does the total.
   */
  lemma OrderIndependence(cut: Cut, a: seq<Payee>, b: seq<Payee>, license: real)
    requires Reordered(a, b)
    ensures forall i, j :: 0 <= i < |a| && 0 <= j < |b| && a[i] == b[j] && !IsEarly(a[i]) ==>
              Resolved(cut, a, license)[i] == Resolved(cut, b, license)[j]
    ensures Early(Resolved(cut, a, license)) == Early(Resolved(cut, b, license))
    ensures Total(cut, a, license) == Total(cut, b, license)
  {
    SameBases(cut, a, b, license);
    EarlyResolvedAlike(cut, a, license, Resolved(cut, a, license));
    EarlyResolvedAlike(cut, b, license, Resolved(cut, b, license));
    Conservation(cut, a, license);
    Conservation(cut, b, license);
    SumPermutes(a, b, AmountOfKind(cut, PercentOfTotal, EarlyTotal(cut, a, license)));
    SumPermutes(a, b, AmountOfKind(cut, Tax, TaxBase(cut, a, license)));
  }

  // ---------- the algorithm

  /** The positions of the payees of one kind, in list order. */
  function Positions(ps: seq<Payee>, kind: Kind): seq<nat> {
    if ps == [] then []
    else Positions(ps[..|ps| - 1], kind) + if ps[|ps| - 1].kind == kind then [|ps| - 1] else []
  }

  lemma {:induction false} PositionsAre(ps: seq<Payee>, kind: Kind)
    ensures forall k :: 0 <= k < |Positions(ps, kind)| ==>
              Positions(ps, kind)[k] < |ps| && ps[Positions(ps, kind)[k]].kind == kind
    ensures forall j, k :: 0 <= j < k < |Positions(ps, kind)| ==> Positions(ps, kind)[j] < Positions(ps, kind)[k]
    ensures forall i :: 0 <= i < |ps| && ps[i].kind == kind ==> i in Positions(ps, kind)
  {
    if ps != [] {
      var n := |ps| - 1;
      var q := Positions(ps[..n], kind);
      PositionsAre(ps[..n], kind);
      assert Positions(ps, kind) == q + if ps[n].kind == kind then [n] else [];
      forall i | 0 <= i < |ps| && ps[i].kind == kind
        ensures i in Positions(ps, kind)
      {
        assert i < n ==> ps[..n][i] == ps[i] && i in q;
      }
    }
  }

  /** The amounts at the first positions of a list of positions. */
  function SumAt(ps: seq<Payee>, at: seq<nat>, f: Payee -> real): real
    requires forall k :: 0 <= k < |at| ==> at[k] < |ps|
  {
    if at == [] then 0.0 else SumAt(ps, at[..|at| - 1], f) + f(ps[at[|at| - 1]])
  }

  lemma {:induction false} SumAtPrefix(ps: seq<Payee>, n: nat, at: seq<nat>, f: Payee -> real)
    requires n <= |ps| && forall k :: 0 <= k < |at| ==> at[k] < n
    ensures SumAt(ps[..n], at, f) == SumAt(ps, at, f)
  {
    if at != [] {
      SumAtPrefix(ps, n, at[..|at| - 1], f);
    }
  }

  /** Summing over the positions of a kind is summing over the list, if f counts that kind only. */
  lemma {:induction false} SumAtPositions(ps: seq<Payee>, kind: Kind, f: Payee -> real)
    requires forall p: Payee :: p.kind != kind ==> f(p) == 0.0
    requires forall k :: 0 <= k < |Positions(ps, kind)| ==> Positions(ps, kind)[k] < |ps|
    ensures SumAt(ps, Positions(ps, kind), f) == Sum(ps, f)
  {
    if ps != [] {
      var n := |ps| - 1;
      PositionsAre(ps[..n], kind);
      SumAtPositions(ps[..n], kind, f);
      SumAtPrefix(ps, n, Positions(ps[..n], kind), f);
      if ps[n].kind == kind {
        assert Positions(ps, kind)[..|Positions(ps, kind)| - 1] == Positions(ps[..n], kind);
      } else {
        assert Positions(ps, kind) == Positions(ps[..n], kind);
      }
    }
  }

  lemma AmountFromGross(cut: Cut, p: Payee, base: real, gross: real)
    requires !p.resolved && gross == Gross(p, base)
    ensures Amount(cut, p, base) == Round(cut, gross)
  {
  }

  /** The helper for percentage payees of every kind: the amount it counts, written to the payee. */
  method ResolvePercentagePayee(cut: Cut, payees: array<Payee>, i: nat, multiplier: real) returns (tmp: real)
    requires i < payees.Length
    modifies payees
    ensures payees[i] == Settle(cut, old(payees[i]), multiplier) && tmp == payees[i].amount
    ensures payees[i] == old(payees[i]).(amount := tmp, resolved := true)
    ensures if old(payees[i]).resolved then tmp == old(payees[i]).amount
            else Charges(cut, old(payees[i]), multiplier, tmp)
    ensures forall j :: 0 <= j < payees.Length && j != i ==> payees[j] == old(payees[j])
  {
    var p := payees[i];
    if p.resolved {
      tmp := p.amount;
    } else {
      tmp := multiplier * p.percentage;
      if p.min.Some? && p.min.value > tmp {
        tmp := p.min.value;
      }
      AmountFromGross(cut, p, multiplier, tmp);
      tmp := Round(cut, tmp);
      payees[i] := p.(amount := tmp, resolved := true);
    }
    assert payees[i] == Settle(cut, p, multiplier);
  }

  /** First pass: flat fees and the percentages that do not depend on a total; the others are listed. */
  method FirstPass(cut: Cut, payees: array<Payee>, license: real)
    returns (total: real, taxable: real, pot: seq<nat>, taxes: seq<nat>)
    modifies payees
    ensures total == EarlyTotal(cut, old(payees[..]), license) && taxable == EarlyTaxable(cut, old(payees[..]), license)
    ensures pot == Positions(old(payees[..]), PercentOfTotal) && taxes == Positions(old(payees[..]), Tax)
    ensures forall j :: 0 <= j < payees.Length ==>
              payees[j] == if IsEarly(old(payees[j])) then ResolvedAt(cut, old(payees[..]), license, j)
                           else old(payees[j])
  {
    ghost var ps := payees[..];
    total, taxable, pot, taxes := 0.0, 0.0, [], [];
    for i := 0 to payees.Length
      invariant total == EarlyTotal(cut, ps[..i], license) && taxable == EarlyTaxable(cut, ps[..i], license)
      invariant pot == Positions(ps[..i], PercentOfTotal) && taxes == Positions(ps[..i], Tax)
      invariant forall j :: 0 <= j < i ==>
                  payees[j] == if IsEarly(ps[j]) then ResolvedAt(cut, ps, license, j) else ps[j]
      invariant forall j :: i <= j < payees.Length ==> payees[j] == ps[j]
    {
      assert ps[..i + 1][..i] == ps[..i];
      var p := payees[i];
      var tmp := 0.0;
      match p.kind {
        case FlatFee =>
          tmp := p.amount;
          payees[i] := p.(resolved := true);
        case PercentOfLicense => tmp := ResolvePercentagePayee(cut, payees, i, license);
        case PercentOfCumulative => tmp := ResolvePercentagePayee(cut, payees, i, total);
        case PercentOfTotal => pot := pot + [i];
        case Tax => taxes := taxes + [i];
      }
      assert tmp == EarlyAmount(cut, p, license, total);
      total := total + tmp;
      if !p.taxExempt {
        taxable := taxable + tmp;
      }
    }
    assert ps[..payees.Length] == ps;
  }

  function Over(cut: Cut, base: real): Payee -> real {
    (p: Payee) => Amount(cut, p, base)
  }

  function TaxableOver(cut: Cut, base: real): Payee -> real {
    (p: Payee) => if p.taxExempt then 0.0 else Amount(cut, p, base)
  }

  /** A later pass over the listed payees, all over the same base. */
  method LatePass(cut: Cut, payees: array<Payee>, at: seq<nat>, base: real) returns (sum: real, taxable: real)
    requires forall k :: 0 <= k < |at| ==> at[k] < payees.Length
    requires forall j, k :: 0 <= j < k < |at| ==> at[j] < at[k]
    modifies payees
    ensures sum == SumAt(old(payees[..]), at, Over(cut, base))
    ensures taxable == SumAt(old(payees[..]), at, TaxableOver(cut, base))
    ensures forall j :: 0 <= j < payees.Length ==>
              payees[j] == if j in at then Settle(cut, old(payees[j]), base) else old(payees[j])
  {
    ghost var ps := payees[..];
    sum, taxable := 0.0, 0.0;
    for k := 0 to |at|
      invariant sum == SumAt(ps, at[..k], Over(cut, base)) && taxable == SumAt(ps, at[..k], TaxableOver(cut, base))
      invariant forall j :: 0 <= j < payees.Length ==>
                  payees[j] == if j in at[..k] then Settle(cut, ps[j], base) else ps[j]
    {
      assert at[..k + 1][..k] == at[..k];
      assert at[k] !in at[..k];
      var tmp := ResolvePercentagePayee(cut, payees, at[k], base);
      sum := sum + tmp;
      if !payees[at[k]].taxExempt {
        taxable := taxable + tmp;
      }
    }
    assert at[..|at|] == at;
  }

  lemma {:induction false} SumAtAgrees(ps: seq<Payee>, qs: seq<Payee>, at: seq<nat>, f: Payee -> real, g: Payee -> real)
    requires |ps| == |qs| && forall k :: 0 <= k < |at| ==> at[k] < |ps|
    requires forall k :: 0 <= k < |at| ==> f(ps[at[k]]) == g(qs[at[k]])
    ensures SumAt(ps, at, f) == SumAt(qs, at, g)
  {
    if at != [] {
      SumAtAgrees(ps, qs, at[..|at| - 1], f, g);
    }
  }

  /** What a later pass adds up is the sum over the whole list of the payees of its kind. */
  lemma LatePassSums(cut: Cut, ps: seq<Payee>, qs: seq<Payee>, kind: Kind, base: real)
    requires |ps| == |qs| && forall i :: 0 <= i < |ps| && ps[i].kind == kind ==> qs[i] == ps[i]
    requires forall k :: 0 <= k < |Positions(ps, kind)| ==> Positions(ps, kind)[k] < |ps|
    ensures SumAt(qs, Positions(ps, kind), Over(cut, base)) == Sum(ps, AmountOfKind(cut, kind, base))
    ensures kind.PercentOfTotal? ==>
              SumAt(qs, Positions(ps, kind), TaxableOver(cut, base)) == Sum(ps, TaxableOfTotal(cut, base))
  {
    PositionsAre(ps, kind);
    var at := Positions(ps, kind);
    SumAtAgrees(qs, ps, at, Over(cut, base), AmountOfKind(cut, kind, base));
    SumAtPositions(ps, kind, AmountOfKind(cut, kind, base));
    if kind.PercentOfTotal? {
      SumAtAgrees(qs, ps, at, TaxableOver(cut, base), TaxableOfTotal(cut, base));
      SumAtPositions(ps, kind, TaxableOfTotal(cut, base));
    }
  }

  /** What the three passes leave behind is the resolved list. */
  lemma PassesResolve(cut: Cut, ps: seq<Payee>, qs: seq<Payee>, rs: seq<Payee>, ts: seq<Payee>, license: real)
    requires |ps| == |qs| == |rs| == |ts|
    requires forall j :: 0 <= j < |ps| ==> qs[j] == if IsEarly(ps[j]) then ResolvedAt(cut, ps, license, j) else ps[j]
    requires forall j :: 0 <= j < |ps| ==>
               rs[j] == if j in Positions(ps, PercentOfTotal) then Settle(cut, qs[j], EarlyTotal(cut, ps, license))
                        else qs[j]
    requires forall j :: 0 <= j < |ps| ==>
               ts[j] == if j in Positions(ps, Tax) then Settle(cut, rs[j], TaxBase(cut, ps, license)) else rs[j]
    ensures ts == Resolved(cut, ps, license)
  {
    PositionsAre(ps, PercentOfTotal);
    PositionsAre(ps, Tax);
    forall j | 0 <= j < |ps|
      ensures ts[j] == ResolvedAt(cut, ps, license, j)
    {
    }
  }

  lemma TaxesUntouched(cut: Cut, ps: seq<Payee>, qs: seq<Payee>, rs: seq<Payee>, license: real)
    requires |ps| == |qs| == |rs|
    requires forall j :: 0 <= j < |ps| ==> qs[j] == if IsEarly(ps[j]) then ResolvedAt(cut, ps, license, j) else ps[j]
    requires forall j :: 0 <= j < |ps| ==>
               rs[j] == if j in Positions(ps, PercentOfTotal) then Settle(cut, qs[j], EarlyTotal(cut, ps, license))
                        else qs[j]
    ensures forall i :: 0 <= i < |ps| && ps[i].kind == Tax ==> rs[i] == ps[i]
  {
    PositionsAre(ps, PercentOfTotal);
  }

  lemma TotalOfPasses(cut: Cut, ps: seq<Payee>, license: real, total: real)
    requires total == EarlyTotal(cut, ps, license)
                      + Sum(ps, AmountOfKind(cut, PercentOfTotal, EarlyTotal(cut, ps, license)))
                                              + Sum(ps, AmountOfKind(cut, Tax, TaxBase(cut, ps, license)))
    ensures Round(cut, total) == Total(cut, ps, license)
  {
    Conservation(cut, ps, license);
  }

  /** The three passes compute the resolved amounts and the total. */
  method ResolvePayeeAmounts(cut: Cut, payees: array<Payee>, license: real) returns (total: real)
    modifies payees
    ensures payees[..] == Resolved(cut, old(payees[..]), license)
    ensures total == Total(cut, old(payees[..]), license) == Round(cut, Sum(payees[..], AmountOf))
  {
    ghost var ps := payees[..];
    PositionsAre(ps, PercentOfTotal);
    PositionsAre(ps, Tax);
    var early, taxable, pot, taxes := FirstPass(cut, payees, license);
    ghost var qs := payees[..];
    LatePassSums(cut, ps, qs, PercentOfTotal, early);
    var ofTotal, taxableOfTotal := LatePass(cut, payees, pot, early);
    ghost var rs := payees[..];
    var taxBase := taxable + taxableOfTotal;
    assert taxBase == TaxBase(cut, ps, license);
    TaxesUntouched(cut, ps, qs, rs, license);
    LatePassSums(cut, ps, rs, Tax, taxBase);
    var tax, _ := LatePass(cut, payees, taxes, taxBase);
    PassesResolve(cut, ps, qs, rs, payees[..], license);
    total := early + ofTotal + tax;
    TotalOfPasses(cut, ps, license, total);
    total := Round(cut, total);
  }
}
