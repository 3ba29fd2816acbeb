/** Polynomials over the two-element field, as the sets of the exponents whose coefficient is one. */
module Polynomials {
  type Poly = set<nat>

  function Add(p: Poly, q: Poly): Poly {
    (p - q) + (q - p)
  }

  /** Multiplication by x^k. */
  function Shift(p: Poly, k: nat): (r: Poly)
    ensures forall e: nat :: e in r <==> k <= e && e - k in p
  {
    set e | e in p :: e + k
  }

  /** g times the polynomial with these exponents. */
  function Multiple(g: Poly, q: seq<nat>): Poly {
    if q == [] then {} else Add(Shift(g, q[0]), Multiple(g, q[1..]))
  }

  /** The bits of a message as coefficients, the first bit the highest. */
  function Message(bits: seq<bool>): Poly
    decreases bits
  {
    if bits == [] then {} else Add(Shift(Message(bits[..|bits| - 1]), 1), Term(bits[|bits| - 1], 0))
  }

  function Term(b: bool, e: nat): Poly {
    if b then {e} else {}
  }

  lemma {:induction false} MessageIs(bits: seq<bool>, e: nat)
    ensures e in Message(bits) <==> e < |bits| && bits[|bits| - 1 - e]
    decreases bits
  {
    if bits != [] && e > 0 {
      MessageIs(bits[..|bits| - 1], e - 1);
    }
  }

  lemma AddAssoc(p: Poly, q: Poly, r: Poly)
    ensures Add(Add(p, q), r) == Add(p, Add(q, r))
  {
  }

  lemma AddComm(p: Poly, q: Poly)
    ensures Add(p, q) == Add(q, p)
  {
  }

  lemma ShiftAdd(p: Poly, q: Poly, k: nat)
    ensures Shift(Add(p, q), k) == Add(Shift(p, k), Shift(q, k))
  {
    forall e: nat
      ensures e in Shift(Add(p, q), k) <==> e in Add(Shift(p, k), Shift(q, k))
    {
    }
  }

  lemma ShiftShift(p: Poly, j: nat, k: nat)
    ensures Shift(Shift(p, j), k) == Shift(p, j + k)
  {
    forall e: nat
      ensures e in Shift(Shift(p, j), k) <==> e in Shift(p, j + k)
    {
    }
  }

  function Raised(q: seq<nat>): seq<nat> {
    if q == [] then [] else [q[0] + 1] + Raised(q[1..])
  }

  /** x times a multiple of g is a multiple of g. */
  lemma {:induction false} RaiseMultiple(g: Poly, q: seq<nat>)
    ensures Multiple(g, Raised(q)) == Shift(Multiple(g, q), 1)
    decreases q
  {
    hide Add, Shift;
    if q == [] {
      ShiftNothing();
    } else {
      RaiseMultiple(g, q[1..]);
      ShiftShift(g, q[0], 1);
      ShiftAdd(Shift(g, q[0]), Multiple(g, q[1..]), 1);
      assert Raised(q)[1..] == Raised(q[1..]);
    }
  }

  lemma ShiftNothing()
    ensures Shift({}, 1) == {}
  {
  }

  // ---------- Division, one message bit at a time ----------

  /** What is divided: the message times x^w, on top of a starting register carried along. */
  function Dividend(bits: seq<bool>, w: nat, start: Poly): Poly {
    Add(Shift(Message(bits), w), Shift(start, |bits|))
  }

  /** One turn of the division: the register takes in a bit at its top, moves up, and gives up g if it overflows. */
  function DivideOnce(g: Poly, w: nat, r: Poly, b: bool): Poly
    requires w > 0
  {
    var taken := Add(r, Term(b, w - 1));
    Add(Shift(taken, 1), if w - 1 in taken then g else {})
  }

  lemma DividendGrows(bits: seq<bool>, b: bool, w: nat, start: Poly)
    ensures Dividend(bits + [b], w, start) == Add(Shift(Dividend(bits, w, start), 1), Term(b, w))
  {
    hide Add, Shift;
    var m := Message(bits);
    assert (bits + [b])[..|bits|] == bits;
    ShiftAdd(Shift(m, 1), Term(b, 0), w);
    ShiftShift(m, 1, w);
    ShiftShift(m, w, 1);
    ShiftTerm(b, 0, w);
    ShiftShift(start, |bits|, 1);
    ShiftAdd(Shift(m, w), Shift(start, |bits|), 1);
    var p, q, t := Shift(m, w + 1), Shift(start, |bits| + 1), Term(b, w);
    AddAssoc(p, t, q);
    AddComm(t, q);
    AddAssoc(p, q, t);
  }

  lemma ShiftTerm(b: bool, e: nat, k: nat)
    ensures Shift(Term(b, e), k) == Term(b, e + k)
  {
  }

  /** If dividend and register differ by a multiple of g, so they do after the next bit. */
  lemma DivisionStep(g: Poly, w: nat, bits: seq<bool>, b: bool, start: Poly, r: Poly, q: seq<nat>) returns (q': seq<nat>)
    requires w > 0 && Add(Dividend(bits, w, start), r) == Multiple(g, q)
    ensures Add(Dividend(bits + [b], w, start), DivideOnce(g, w, r, b)) == Multiple(g, q')
  {
    hide Dividend, Shift, Add;
    var d := Dividend(bits, w, start);
    var taken := Add(r, Term(b, w - 1));
    var over := w - 1 in taken;
    DividendGrows(bits, b, w, start);
    ShiftAdd(r, Term(b, w - 1), 1);
    ShiftTerm(b, w - 1, 1);
    RaiseMultiple(g, q);
    ShiftAdd(d, r, 1);
    q' := if over then [0] + Raised(q) else Raised(q);
    TakeIn(Shift(d, 1), Shift(r, 1), Term(b, w), if over then g else {});
    if over {
      assert q'[1..] == Raised(q);
      ShiftZero(g);
      AddComm(Add(Shift(d, 1), Shift(r, 1)), g);
    } else {
      AddNothing(Add(Shift(d, 1), Shift(r, 1)));
    }
  }

  lemma TakeIn(d: Poly, r: Poly, t: Poly, o: Poly)
    ensures Add(Add(d, t), Add(Add(r, t), o)) == Add(Add(d, r), o)
  {
  }

  lemma ShiftZero(g: Poly)
    ensures Shift(g, 0) == g
  {
  }

  lemma AddNothing(p: Poly)
    ensures Add(p, {}) == p
  {
  }

  lemma NothingDivided(w: nat, start: Poly)
    ensures Add(Dividend([], w, start), start) == {}
  {
    ShiftZero(start);
    assert Shift({}, w) == {};
  }
}
