/** Polynomials over the field with 1024 elements: one with as many roots as coefficients is zero. */
module Polynomial {
  import opened Galois

  /** The value at `b`; the constant coefficient comes first. */
  function Eval(p: seq<elem>, b: elem): elem {
    if p == [] then 0 else Plus(p[0], Mul(b, Eval(p[1..], b)))
  }

  /** `p` without its constant value at `r`, divided by the factor that vanishes at `r`. */
  function Quotient(p: seq<elem>, r: elem): (q: seq<elem>)
    ensures |q| == if p == [] then 0 else |p| - 1
  {
    if |p| <= 1 then [] else [Eval(p[1..], r)] + Quotient(p[1..], r)
  }

  predicate AllZero(p: seq<elem>) {
    forall i :: 0 <= i < |p| ==> p[i] == 0
  }

  lemma Rearrange(c: elem, b: elem, r: elem, q: elem, v: elem)
    ensures Plus(c, Mul(b, Plus(Mul(Plus(b, r), q), v)))
            == Plus(Mul(Plus(b, r), Plus(v, Mul(b, q))), Plus(c, Mul(r, v)))
  {
    hide Plus, Mul;
    var d := Plus(b, r);
    Distributes(b, Mul(d, q), v);
    MulSwap(b, d, q);
    Distributes(d, v, Mul(b, q));
    Distributes(b, r, v);
    Reorder(c, Mul(d, Mul(b, q)), Mul(b, v), Mul(r, v));
  }

  lemma Reorder(c: elem, m: elem, v: elem, w: elem)
    ensures Plus(c, Plus(m, v)) == Plus(Plus(Plus(v, w), m), Plus(c, w))
  {
    assert c ^ (m ^ v) == ((v ^ w) ^ m) ^ (c ^ w);
  }

  lemma {:induction false} Factor(p: seq<elem>, r: elem, b: elem)
    ensures Eval(p, b) == Plus(Mul(Plus(b, r), Eval(Quotient(p, r), b)), Eval(p, r))
  {
    hide Plus, Mul;
    One(Plus(b, r));
    if |p| <= 1 {
      One(b);
      One(r);
      PlusLaws(Eval(p, r), 0, 0);
      assert Quotient(p, r) == [];
      if p == [] {
        PlusLaws(0, 0, 0);
      } else {
        assert Eval(p[1..], b) == 0 && Eval(p[1..], r) == 0;
      }
    } else {
      var q := Quotient(p[1..], r);
      Factor(p[1..], r, b);
      assert Quotient(p, r)[1..] == q;
      Rearrange(p[0], b, r, Eval(q, b), Eval(p[1..], r));
    }
  }

  lemma {:induction false} QuotientZero(p: seq<elem>, r: elem)
    requires AllZero(Quotient(p, r)) && Eval(p, r) == 0
    ensures AllZero(p)
  {
    hide Plus, Mul;
    if p != [] {
      One(r);
      PlusLaws(p[0], 0, 0);
      if |p| > 1 {
        assert Quotient(p, r)[0] == Eval(p[1..], r) && Quotient(p, r)[1..] == Quotient(p[1..], r);
        QuotientZero(p[1..], r);
        assert p == [p[0]] + p[1..];
      } else {
        assert Eval(p[1..], r) == 0;
      }
    }
  }

  predicate Distinct(rs: seq<elem>) {
    forall i, j :: 0 <= i < j < |rs| ==> rs[i] != rs[j]
  }

  predicate Roots(p: seq<elem>, rs: seq<elem>) {
    forall i :: 0 <= i < |rs| ==> Eval(p, rs[i]) == 0
  }

  lemma {:induction false} TooManyRoots(p: seq<elem>, rs: seq<elem>)
    requires |rs| >= |p| && Distinct(rs) && Roots(p, rs)
    ensures AllZero(p)
    decreases |p|
  {
    hide Plus, Mul, Eval, Quotient;
    if p != [] {
      var r, rest := rs[0], rs[1..];
      var q := Quotient(p, r);
      forall i | 0 <= i < |rest| ensures Eval(q, rest[i]) == 0 {
        var s := rs[i + 1];
        Factor(p, r, s);
        PlusLaws(Mul(Plus(s, r), Eval(q, s)), 0, 0);
        PlusLaws(s, r, 0);
        NoZeroDivisors(Plus(s, r), Eval(q, s));
      }
      TooManyRoots(q, rest);
      QuotientZero(p, r);
    }
  }
}
