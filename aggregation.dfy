/** The aggregation formula of an attribute instance, on modifier states:
    keep the live modifiers, order them stably by ascending priority, then
    base + flat sum + base * (percentage sum / 100), compounded by every
    multiplier. Also the tick of a whole modifier list. */
module Aggregation {
  import opened Types
  import opened Modifiers

  // ----- Filtering and ordering -----

  function LiveOnly(s: seq<ModifierState>): seq<ModifierState> {
    if s == [] then []
    else if Live(s[|s| - 1]) then LiveOnly(s[..|s| - 1]) + [s[|s| - 1]]
    else LiveOnly(s[..|s| - 1])
  }

  /** Inserts `x` after every element whose priority is not above its own. */
  function InsertByPriority(t: seq<ModifierState>, x: ModifierState): seq<ModifierState> {
    if t == [] || t[|t| - 1].priority <= x.priority then t + [x]
    else InsertByPriority(t[..|t| - 1], x) + [t[|t| - 1]]
  }

  /** A stable sort by ascending priority (the ordering of LINQ's OrderBy). */
  function SortByPriority(s: seq<ModifierState>): seq<ModifierState> {
    if s == [] then []
    else InsertByPriority(SortByPriority(s[..|s| - 1]), s[|s| - 1])
  }

  ghost predicate SortedByPriority(s: seq<ModifierState>) {
    forall i, j :: 0 <= i < j < |s| ==> s[i].priority <= s[j].priority
  }

  /** The elements of priority `p`, in their order. */
  function WithPriority(s: seq<ModifierState>, p: int): seq<ModifierState> {
    if s == [] then []
    else WithPriority(s[..|s| - 1], p) + (if s[|s| - 1].priority == p then [s[|s| - 1]] else [])
  }

  // ----- The three folds -----

  /** What each modifier contributes; the folds are stated for any such
      valuation, and the attribute uses the one of a moment in time. */
  type Valuation = ModifierState -> real

  function ValuedAt(now: real): (v: Valuation)
    ensures forall x :: !Live(x) ==> v(x) == 0.0
  {
    m => ValueAt(m, now)
  }

  /** Sum of the contributions of the modifiers of kind `k`, left to right. */
  function KindTotal(s: seq<ModifierState>, k: ModifierType, v: Valuation): real {
    if s == [] then 0.0
    else KindTotal(s[..|s| - 1], k, v) + (if s[|s| - 1].kind == k then v(s[|s| - 1]) else 0.0)
  }

  /** The factor one modifier contributes to the compounding step. */
  function Factor(m: ModifierState, v: Valuation): real {
    if m.kind == PercentageMultiply then 1.0 + v(m) / 100.0 else 1.0
  }

  /** `x` multiplied by the factor of each multiplier, applied left to right. */
  function Compounded(x: real, s: seq<ModifierState>, v: Valuation): real {
    if s == [] then x
    else if s[|s| - 1].kind == PercentageMultiply then Compounded(x, s[..|s| - 1], v) * Factor(s[|s| - 1], v)
    else Compounded(x, s[..|s| - 1], v)
  }

  /** `pct` percent of `base`. */
  function Share(base: real, pct: real): real {
    base * (pct / 100.0)
  }

  /** The percentage-add step: always a share of the base, never of the running total. */
  function PercentTerm(base: real, totalPercentageAdd: real): real {
    if totalPercentageAdd != 0.0 then Share(base, totalPercentageAdd) else 0.0
  }

  /** The reference formula: (base + flat + pct% of base) * product. */
  function ClosedForm(base: real, flat: real, pct: real, product: real): real {
    Mul(base + flat + Share(base, pct), product)
  }

  /** The aggregate over an already filtered and ordered list. */
  function Aggregate(base: real, ordered: seq<ModifierState>, v: Valuation): real {
    Compounded(base + KindTotal(ordered, Flat, v) + PercentTerm(base, KindTotal(ordered, PercentageAdd, v)),
               ordered, v)
  }

  /** The aggregate of the live modifiers of `s`, stably ordered by priority. */
  function AggregateOf(base: real, s: seq<ModifierState>, v: Valuation): real {
    Aggregate(base, SortByPriority(LiveOnly(s)), v)
  }

  /** The current value of an attribute with base `base` and modifiers `s` at time `now`. */
  function ValueOf(base: real, s: seq<ModifierState>, now: real): real {
    AggregateOf(base, s, ValuedAt(now))
  }

  /** A valuation under which a modifier that is not live contributes nothing. */
  ghost predicate DeadIsZero(v: Valuation) {
    forall x :: !Live(x) ==> v(x) == 0.0
  }

  /** A binary operation on reals. */
  type Combine = (real, real) -> real

  /** The values `f` gives the modifiers of `s`, combined with `op` from
      `unit`, left to right. */
  function Fold(s: seq<ModifierState>, f: Valuation, op: Combine, unit: real): real {
    if s == [] then unit else op(Fold(s[..|s| - 1], f, op, unit), f(s[|s| - 1]))
  }

  /** An operation whose last two operands may be swapped: every order of
      the list then folds to the same value. */
  ghost predicate Reorderable(op: Combine) {
    forall a, b, c :: op(op(a, b), c) == op(op(a, c), b)
  }

  function Mul(a: real, b: real): real { a * b }

  /** The product of the factors `f` gives the modifiers of `s` (the
      reference formula's product, with f the factor of each modifier). */
  function Product(s: seq<ModifierState>, f: Valuation): real {
    Fold(s, f, Mul, 1.0)
  }

  /** `f` gives every modifier its compounding factor under `v`. */
  ghost predicate FactorsOf(f: Valuation, v: Valuation) {
    forall m :: f(m) == Factor(m, v)
  }

  function Factors(v: Valuation): (f: Valuation)
    ensures FactorsOf(f, v)
  {
    m => Factor(m, v)
  }

  // ----- Tick of a list -----

  /** The states after every modifier has ticked, keeping those not expired, in order. */
  function AfterTick(s: seq<ModifierState>, now: real): (r: seq<ModifierState>)
    ensures |r| <= |s|
    ensures forall x :: x in r ==> !x.isExpired
  {
    if s == [] then []
    else (if Ticked(s[0], now).isExpired then [] else [Ticked(s[0], now)]) + AfterTick(s[1..], now)
  }

  /** The IDs of the modifiers that a tick at `now` expires. */
  function FiredIds(s: seq<ModifierState>, now: real): (r: set<string>)
    ensures forall id :: id in r <==> exists j :: 0 <= j < |s| && s[j].id == id && ExpiresAt(s[j], now)
  {
    if s == [] then {}
    else (if ExpiresAt(s[0], now) then {s[0].id} else {}) + FiredIds(s[1..], now)
  }

  // ----- Lemmas: ordering -----

  lemma {:induction false} InsertSorted(t: seq<ModifierState>, x: ModifierState)
    requires SortedByPriority(t)
    ensures SortedByPriority(InsertByPriority(t, x))
    ensures |InsertByPriority(t, x)| == |t| + 1
    decreases |t|
  {
    if t == [] || t[|t| - 1].priority <= x.priority {
    } else {
      var u := t[..|t| - 1];
      var last := t[|t| - 1];
      InsertSorted(u, x);
      InsertBounded(u, x, last.priority);
    }
  }

  /** Inserting keeps every priority under a common bound. */
  lemma {:induction false} InsertBounded(t: seq<ModifierState>, x: ModifierState, p: int)
    requires forall i :: 0 <= i < |t| ==> t[i].priority <= p
    requires x.priority <= p
    ensures forall i :: 0 <= i < |InsertByPriority(t, x)| ==> InsertByPriority(t, x)[i].priority <= p
    decreases |t|
  {
    if t != [] && t[|t| - 1].priority > x.priority {
      InsertBounded(t[..|t| - 1], x, p);
    }
  }

  /** Sorting really sorts. */
  lemma {:induction false} SortIsSorted(s: seq<ModifierState>)
    ensures SortedByPriority(SortByPriority(s))
    ensures |SortByPriority(s)| == |s|
  {
    if s != [] {
      SortIsSorted(s[..|s| - 1]);
      InsertSorted(SortByPriority(s[..|s| - 1]), s[|s| - 1]);
    }
  }

  lemma {:induction false} WithPriorityAppend(a: seq<ModifierState>, x: ModifierState, p: int)
    ensures WithPriority(a + [x], p) == WithPriority(a, p) + (if x.priority == p then [x] else [])
  {
    assert (a + [x])[..|a + [x]| - 1] == a;
  }

  lemma {:induction false} InsertStable(t: seq<ModifierState>, x: ModifierState, p: int)
    ensures WithPriority(InsertByPriority(t, x), p) == WithPriority(t, p) + (if x.priority == p then [x] else [])
    decreases |t|
  {
    if t == [] || t[|t| - 1].priority <= x.priority {
      WithPriorityAppend(t, x, p);
    } else {
      var u := t[..|t| - 1];
      var last := t[|t| - 1];
      assert t == u + [last];
      InsertStable(u, x, p);
      WithPriorityAppend(InsertByPriority(u, x), last, p);
      WithPriorityAppend(u, last, p);
    }
  }

  /** The sort is stable: for every priority, the modifiers of that priority
      keep their original relative order. Together with SortIsSorted and the
      multiset ensures of SortByPriority this pins the result down. */
  lemma {:induction false} SortIsStable(s: seq<ModifierState>, p: int)
    ensures WithPriority(SortByPriority(s), p) == WithPriority(s, p)
  {
    if s != [] {
      var u := s[..|s| - 1];
      assert s == u + [s[|s| - 1]];
      SortIsStable(u, p);
      InsertStable(SortByPriority(u), s[|s| - 1], p);
      WithPriorityAppend(u, s[|s| - 1], p);
    }
  }

  // ----- Lemmas: the folds do not see the order or the dead modifiers -----

  lemma {:induction false} KindTotalAppend(a: seq<ModifierState>, x: ModifierState, k: ModifierType, v: Valuation)
    ensures KindTotal(a + [x], k, v) == KindTotal(a, k, v) + (if x.kind == k then v(x) else 0.0)
  {
    assert (a + [x])[..|a + [x]| - 1] == a;
  }

  lemma {:induction false} InsertKindTotal(t: seq<ModifierState>, x: ModifierState, k: ModifierType, v: Valuation)
    ensures KindTotal(InsertByPriority(t, x), k, v) == KindTotal(t, k, v) + (if x.kind == k then v(x) else 0.0)
    decreases |t|
  {
    if t == [] || t[|t| - 1].priority <= x.priority {
      KindTotalAppend(t, x, k, v);
    } else {
      var u := t[..|t| - 1];
      assert t == u + [t[|t| - 1]];
      InsertKindTotal(u, x, k, v);
      KindTotalAppend(InsertByPriority(u, x), t[|t| - 1], k, v);
      KindTotalAppend(u, t[|t| - 1], k, v);
    }
  }

  /** Insertion puts `x` at one position and leaves the rest in order. */
  lemma {:induction false} InsertSplit(t: seq<ModifierState>, x: ModifierState) returns (k: nat)
    ensures k <= |t| && InsertByPriority(t, x) == t[..k] + [x] + t[k..]
    decreases |t|
  {
    if t == [] || t[|t| - 1].priority <= x.priority {
      k := |t|;
      assert t[k..] == [];
    } else {
      var u := t[..|t| - 1];
      var last := t[|t| - 1];
      k := InsertSplit(u, x);
      assert u[..k] == t[..k];
      assert t == u + [last];
      SuffixSnoc(u, last, k);
      calc {
        InsertByPriority(t, x);
        InsertByPriority(u, x) + [last];
        t[..k] + [x] + u[k..] + [last];
        t[..k] + [x] + (u[k..] + [last]);
      }
    }
  }

  lemma SuffixSnoc<T>(u: seq<T>, last: T, k: nat)
    requires k <= |u|
    ensures (u + [last])[k..] == u[k..] + [last]
  {
    var t := u + [last];
    assert forall i :: 0 <= i < |t[k..]| ==> t[k..][i] == (u[k..] + [last])[i];
  }

  /** Insertion adds exactly one occurrence of `x`. */
  lemma InsertPermutes(t: seq<ModifierState>, x: ModifierState)
    ensures multiset(InsertByPriority(t, x)) == multiset(t) + multiset{x}
  {
    var k := InsertSplit(t, x);
    assert t == t[..k] + t[k..];
  }

  /** The sort is a permutation of its input. */
  lemma {:induction false} SortPermutes(s: seq<ModifierState>)
    ensures multiset(SortByPriority(s)) == multiset(s)
  {
    if s != [] {
      var u := s[..|s| - 1];
      assert s == u + [s[|s| - 1]];
      SortPermutes(u);
      InsertPermutes(SortByPriority(u), s[|s| - 1]);
    }
  }

  // ----- Lemmas: a reorderable fold ignores the order and its neutral elements -----

  lemma {:induction false} FoldAppend(a: seq<ModifierState>, x: ModifierState, f: Valuation, op: Combine, unit: real)
    ensures Fold(a + [x], f, op, unit) == op(Fold(a, f, op, unit), f(x))
  {
    assert (a + [x])[..|a + [x]| - 1] == a;
  }

  /** An element inserted anywhere is combined in once. */
  lemma {:induction false} FoldInsertAt(a: seq<ModifierState>, x: ModifierState, b: seq<ModifierState>,
                                        f: Valuation, op: Combine, unit: real)
    requires Reorderable(op)
    ensures Fold(a + [x] + b, f, op, unit) == op(Fold(a + b, f, op, unit), f(x))
    decreases |b|
  {
    if b == [] {
      assert a + [x] + b == a + [x] && a + b == a;
      FoldAppend(a, x, f, op, unit);
    } else {
      var c := b[..|b| - 1];
      var y := b[|b| - 1];
      assert a + [x] + b == (a + [x] + c) + [y];
      assert a + b == (a + c) + [y];
      calc {
        Fold(a + [x] + b, f, op, unit);
        { FoldAppend(a + [x] + c, y, f, op, unit); }
        op(Fold(a + [x] + c, f, op, unit), f(y));
        { FoldInsertAt(a, x, c, f, op, unit); }
        op(op(Fold(a + c, f, op, unit), f(x)), f(y));
        { Swap(op, Fold(a + c, f, op, unit), f(x), f(y)); }
        op(op(Fold(a + c, f, op, unit), f(y)), f(x));
        { FoldAppend(a + c, y, f, op, unit); }
        op(Fold(a + b, f, op, unit), f(x));
      }
    }
  }

  lemma Swap(op: Combine, a: real, b: real, c: real)
    requires Reorderable(op)
    ensures op(op(a, b), c) == op(op(a, c), b)
  {
  }

  lemma FoldInsert(t: seq<ModifierState>, x: ModifierState, f: Valuation, op: Combine, unit: real)
    requires Reorderable(op)
    ensures Fold(InsertByPriority(t, x), f, op, unit) == op(Fold(t, f, op, unit), f(x))
  {
    var k := InsertSplit(t, x);
    var a, b := t[..k], t[k..];
    assert a + b == t;
    FoldInsertAt(a, x, b, f, op, unit);
  }

  lemma {:induction false} FoldSort(s: seq<ModifierState>, f: Valuation, op: Combine, unit: real)
    requires Reorderable(op)
    ensures Fold(SortByPriority(s), f, op, unit) == Fold(s, f, op, unit)
  {
    if s != [] {
      var u := s[..|s| - 1];
      var y := s[|s| - 1];
      assert s == u + [y];
      calc {
        Fold(SortByPriority(s), f, op, unit);
        Fold(InsertByPriority(SortByPriority(u), y), f, op, unit);
        { FoldInsert(SortByPriority(u), y, f, op, unit); }
        op(Fold(SortByPriority(u), f, op, unit), f(y));
        { FoldSort(u, f, op, unit); }
        op(Fold(u, f, op, unit), f(y));
        { FoldAppend(u, y, f, op, unit); }
        Fold(s, f, op, unit);
      }
    }
  }

  /** `f` maps every modifier that is not live to a neutral operand of `op`. */
  ghost predicate DeadIsNeutral(f: Valuation, op: Combine) {
    forall x, a :: !Live(x) ==> op(a, f(x)) == a
  }

  lemma {:induction false} FoldLive(s: seq<ModifierState>, f: Valuation, op: Combine, unit: real)
    requires DeadIsNeutral(f, op)
    ensures Fold(LiveOnly(s), f, op, unit) == Fold(s, f, op, unit)
  {
    if s != [] {
      var u := s[..|s| - 1];
      var x := s[|s| - 1];
      assert s == u + [x];
      FoldLive(u, f, op, unit);
      FoldAppend(u, x, f, op, unit);
      if Live(x) {
        FoldAppend(LiveOnly(u), x, f, op, unit);
      }
    }
  }

  // ----- Lemmas: the product -----

  lemma MulReorderable()
    ensures Reorderable(Mul)
  {
    forall a: real, b: real, c: real ensures Mul(Mul(a, b), c) == Mul(Mul(a, c), b) {
      Regroup(a, b, c);
    }
  }

  lemma ProductAppend(a: seq<ModifierState>, x: ModifierState, f: Valuation)
    ensures Product(a + [x], f) == Product(a, f) * f(x)
  {
    FoldAppend(a, x, f, Mul, 1.0);
  }

  /** The sort does not change the product. */
  lemma SortKeepsProduct(s: seq<ModifierState>, f: Valuation)
    ensures Product(SortByPriority(s), f) == Product(s, f)
  {
    MulReorderable();
    FoldSort(s, f, Mul, 1.0);
  }

  /** A valuation that gives every modifier that is not live the factor 1. */
  ghost predicate DeadIsOne(f: Valuation) {
    forall x :: !Live(x) ==> f(x) == 1.0
  }

  /** Dropping the modifiers that are not live does not change the product. */
  lemma LiveKeepsProduct(s: seq<ModifierState>, f: Valuation)
    requires DeadIsOne(f)
    ensures Product(LiveOnly(s), f) == Product(s, f)
  {
    assert DeadIsNeutral(f, Mul) by {
      forall x, a | !Live(x) ensures Mul(a, f(x)) == a {
        assert f(x) == 1.0;
      }
    }
    FoldLive(s, f, Mul, 1.0);
  }

  /** A factor inserted anywhere multiplies the product once. */
  lemma ProductInsertAt(a: seq<ModifierState>, x: ModifierState, b: seq<ModifierState>, f: Valuation)
    ensures Product(a + [x] + b, f) == Mul(Product(a + b, f), f(x))
  {
    MulReorderable();
    FoldInsertAt(a, x, b, f, Mul, 1.0);
  }

  lemma Regroup(a: real, b: real, c: real)
    ensures (a * b) * c == (a * c) * b
  {
  }

  lemma {:induction false} SortKeepsKindTotal(s: seq<ModifierState>, k: ModifierType, v: Valuation)
    ensures KindTotal(SortByPriority(s), k, v) == KindTotal(s, k, v)
  {
    if s != [] {
      var u := s[..|s| - 1];
      assert s == u + [s[|s| - 1]];
      SortKeepsKindTotal(u, k, v);
      InsertKindTotal(SortByPriority(u), s[|s| - 1], k, v);
      KindTotalAppend(u, s[|s| - 1], k, v);
    }
  }

  lemma {:induction false} LiveKeepsKindTotal(s: seq<ModifierState>, k: ModifierType, v: Valuation)
    requires DeadIsZero(v)
    ensures KindTotal(LiveOnly(s), k, v) == KindTotal(s, k, v)
  {
    if s != [] {
      var u := s[..|s| - 1];
      var x := s[|s| - 1];
      assert s == u + [x];
      LiveKeepsKindTotal(u, k, v);
      KindTotalAppend(u, x, k, v);
      if Live(x) {
        KindTotalAppend(LiveOnly(u), x, k, v);
      } else {
        assert v(x) == 0.0;
      }
    }
  }

  /** One step of the compounding pass: a multiplier scales the running
      value by its factor, any other modifier leaves it. */
  lemma CompoundedStep(x: real, s: seq<ModifierState>, m: ModifierState, v: Valuation, running: real, factor: real)
    requires running == Compounded(x, s, v) && factor == Factor(m, v)
    ensures m.kind == PercentageMultiply ==> Compounded(x, s + [m], v) == running * factor
    ensures m.kind != PercentageMultiply ==> Compounded(x, s + [m], v) == running
  {
    assert (s + [m])[..|s|] == s;
  }

  lemma {:induction false} CompoundedIsProduct(x: real, s: seq<ModifierState>, v: Valuation, f: Valuation)
    requires FactorsOf(f, v)
    ensures Compounded(x, s, v) == Mul(x, Product(s, f))
  {
    if s != [] {
      CompoundedIsProduct(x, s[..|s| - 1], v, f);
      if s[|s| - 1].kind != PercentageMultiply {
        assert f(s[|s| - 1]) == 1.0;
      }
    }
  }

  /** The aggregation formula in closed form: the current value is
      (base + Σflat + base·Σpct/100) · Π(1 + m/100), where the sums and the
      product may run over all modifiers in any recorded order, because the
      sort does not change them and a modifier that is not live contributes
      0 to the sums and a factor 1 to the product. */
  lemma AggregateFormula(base: real, s: seq<ModifierState>, v: Valuation, f: Valuation)
    requires DeadIsZero(v) && FactorsOf(f, v)
    ensures AggregateOf(base, s, v) ==
      ClosedForm(base, KindTotal(s, Flat, v), KindTotal(s, PercentageAdd, v), Product(s, f))
  {
    SortKeepsKindTotal(LiveOnly(s), Flat, v);
    SortKeepsKindTotal(LiveOnly(s), PercentageAdd, v);
    SortKeepsProduct(LiveOnly(s), f);
    LiveKeepsKindTotal(s, Flat, v);
    LiveKeepsKindTotal(s, PercentageAdd, v);
    FactorsOfDeadAreOne(v, f);
    LiveKeepsProduct(s, f);
    OrderedFormula(base, SortByPriority(LiveOnly(s)), s, v, f);
  }

  lemma FactorsOfDeadAreOne(v: Valuation, f: Valuation)
    requires DeadIsZero(v) && FactorsOf(f, v)
    ensures DeadIsOne(f)
  {
    forall x | !Live(x) ensures f(x) == 1.0 {
      assert v(x) == 0.0;
    }
  }

  /** The aggregate over any list `o` with the sums and the product of `s`. */
  lemma OrderedFormula(base: real, o: seq<ModifierState>, s: seq<ModifierState>, v: Valuation, f: Valuation)
    requires FactorsOf(f, v)
    requires KindTotal(o, Flat, v) == KindTotal(s, Flat, v)
    requires KindTotal(o, PercentageAdd, v) == KindTotal(s, PercentageAdd, v)
    requires Product(o, f) == Product(s, f)
    ensures Aggregate(base, o, v) ==
      ClosedForm(base, KindTotal(s, Flat, v), KindTotal(s, PercentageAdd, v), Product(s, f))
  {
    var x := base + KindTotal(o, Flat, v) + PercentTerm(base, KindTotal(o, PercentageAdd, v));
    PercentTermIsShare(base, KindTotal(o, PercentageAdd, v));
    assert x == base + KindTotal(s, Flat, v) + Share(base, KindTotal(s, PercentageAdd, v));
    CompoundedIsProduct(x, o, v, f);
  }

  /** The guarded percentage step equals the plain share of the base. */
  lemma PercentTermIsShare(base: real, total: real)
    ensures PercentTerm(base, total) == Share(base, total)
  {
  }

  /** With no modifiers, the current value is the base value. */
  lemma NoModifiersIsBase(base: real, now: real)
    ensures ValueOf(base, [], now) == base
  {
  }

  /** A list in which no modifier is live yields exactly the base value. */
  lemma {:induction false} NothingLiveIsBase(base: real, s: seq<ModifierState>, now: real)
    requires forall i :: 0 <= i < |s| ==> !Live(s[i])
    ensures ValueOf(base, s, now) == base
  {
    NoLiveIsEmpty(s);
  }

  lemma {:induction false} NoLiveIsEmpty(s: seq<ModifierState>)
    requires forall i :: 0 <= i < |s| ==> !Live(s[i])
    ensures LiveOnly(s) == []
  {
    if s != [] {
      NoLiveIsEmpty(s[..|s| - 1]);
    }
  }

  lemma {:induction false} KindTotalConcat(a: seq<ModifierState>, b: seq<ModifierState>, k: ModifierType, v: Valuation)
    ensures KindTotal(a + b, k, v) == KindTotal(a, k, v) + KindTotal(b, k, v)
    decreases |b|
  {
    if b == [] {
      assert a + b == a;
    } else {
      var c := b[..|b| - 1];
      var y := b[|b| - 1];
      assert b == c + [y];
      assert a + b == (a + c) + [y];
      KindTotalConcat(a, c, k, v);
      KindTotalAppend(a + c, y, k, v);
      KindTotalAppend(c, y, k, v);
    }
  }

  /** Only live modifiers contribute: inserting a modifier that is not live
      anywhere in the list leaves the value unchanged. */
  lemma InertModifierChangesNothingUnder(base: real, a: seq<ModifierState>, x: ModifierState, b: seq<ModifierState>,
                                        v: Valuation, f: Valuation)
    requires DeadIsZero(v) && FactorsOf(f, v) && !Live(x)
    ensures AggregateOf(base, a + [x] + b, v) == AggregateOf(base, a + b, v)
  {
    AggregateFormula(base, a + [x] + b, v, f);
    AggregateFormula(base, a + b, v, f);
    assert v(x) == 0.0 && f(x) == 1.0;
    KindTotalConcat(a + [x], b, Flat, v);
    KindTotalConcat(a, b, Flat, v);
    KindTotalAppend(a, x, Flat, v);
    KindTotalConcat(a + [x], b, PercentageAdd, v);
    KindTotalConcat(a, b, PercentageAdd, v);
    KindTotalAppend(a, x, PercentageAdd, v);
    ProductInsertAt(a, x, b, f);
  }

  lemma InertModifierChangesNothing(base: real, a: seq<ModifierState>, x: ModifierState, b: seq<ModifierState>, now: real)
    requires !Live(x)
    ensures ValueOf(base, a + [x] + b, now) == ValueOf(base, a + b, now)
  {
    InertModifierChangesNothingUnder(base, a, x, b, ValuedAt(now), Factors(ValuedAt(now)));
  }

  /** A two-element list, as an append to the empty one. */
  lemma Pair(x: ModifierState, y: ModifierState)
    ensures [x, y] == [] + [x] + [y]
  {
  }

  /** Percentage-add modifiers are shares of the original base: two of them
      give base + (p1 + p2)% of base, not base·(1 + p1/100)·(1 + p2/100). */
  lemma PercentagesShareBaseUnder(base: real, p1: ModifierState, p2: ModifierState, v: Valuation, f: Valuation)
    requires DeadIsZero(v) && FactorsOf(f, v)
    requires p1.kind == PercentageAdd && p2.kind == PercentageAdd
    ensures AggregateOf(base, [p1, p2], v) == base + Share(base, v(p1) + v(p2))
  {
    AggregateFormula(base, [p1, p2], v, f);
    Pair(p1, p2);
    KindTotalAppend([], p1, Flat, v);
    KindTotalAppend([p1], p2, Flat, v);
    KindTotalAppend([], p1, PercentageAdd, v);
    KindTotalAppend([p1], p2, PercentageAdd, v);
    ProductAppend([], p1, f);
    ProductAppend([p1], p2, f);
    assert f(p1) == 1.0 && f(p2) == 1.0;
  }

  /** The same for two live permanent percentage modifiers at any time. */
  lemma PercentagesAddToBase(base: real, p1: ModifierState, p2: ModifierState, now: real)
    requires Live(p1) && Live(p2) && p1.kind == PercentageAdd && p2.kind == PercentageAdd
    requires p1.application == Permanent && p2.application == Permanent
    ensures ValueOf(base, [p1, p2], now) == base + Share(base, p1.value + p2.value)
  {
    var v := ValuedAt(now);
    SteadyValue(p1, now);
    SteadyValue(p2, now);
    assert v(p1) + v(p2) == p1.value + p2.value;
    PercentagesShareBaseUnder(base, p1, p2, v, Factors(v));
  }

  /** Multipliers compound: two of them multiply the base by both factors,
      not by 1 + (m1 + m2)/100. */
  lemma MultipliersCompoundUnder(base: real, m1: ModifierState, m2: ModifierState, v: Valuation, f: Valuation)
    requires DeadIsZero(v) && FactorsOf(f, v)
    requires m1.kind == PercentageMultiply && m2.kind == PercentageMultiply
    ensures AggregateOf(base, [m1, m2], v) == base * Factor(m1, v) * Factor(m2, v)
  {
    AggregateFormula(base, [m1, m2], v, f);
    MultiplierPairTotals(m1, m2, v, f);
    assert Share(base, 0.0) == 0.0;
    assert f(m1) == Factor(m1, v) && f(m2) == Factor(m2, v);
  }

  /** Two multipliers contribute no flat or percentage-add total, and the
      product of their factors. */
  lemma MultiplierPairTotals(m1: ModifierState, m2: ModifierState, v: Valuation, f: Valuation)
    requires m1.kind == PercentageMultiply && m2.kind == PercentageMultiply
    ensures KindTotal([m1, m2], Flat, v) == 0.0 && KindTotal([m1, m2], PercentageAdd, v) == 0.0
    ensures Product([m1, m2], f) == f(m1) * f(m2)
  {
    Pair(m1, m2);
    KindTotalAppend([], m1, Flat, v);
    KindTotalAppend([m1], m2, Flat, v);
    KindTotalAppend([], m1, PercentageAdd, v);
    KindTotalAppend([m1], m2, PercentageAdd, v);
    ProductAppend([], m1, f);
    ProductAppend([m1], m2, f);
  }

  /** The same for two live permanent multipliers at any time. */
  lemma MultipliersCompound(base: real, m1: ModifierState, m2: ModifierState, now: real)
    requires Live(m1) && Live(m2) && m1.kind == PercentageMultiply && m2.kind == PercentageMultiply
    requires m1.application == Permanent && m2.application == Permanent
    ensures ValueOf(base, [m1, m2], now) == base * (1.0 + m1.value / 100.0) * (1.0 + m2.value / 100.0)
  {
    var v := ValuedAt(now);
    MultipliersCompoundUnder(base, m1, m2, v, Factors(v));
    SteadyValue(m1, now);
    SteadyValue(m2, now);
    assert Factor(m1, v) == 1.0 + m1.value / 100.0;
    assert Factor(m2, v) == 1.0 + m2.value / 100.0;
  }

  /** With no multipliers the formula is a plain sum. */
  lemma ClosedFormAtOne(base: real, flat: real, pct: real)
    ensures ClosedForm(base, flat, pct, 1.0) == base + flat + Share(base, pct)
  {
  }

  /** Appending a Flat modifier to a list without multipliers raises the
      value by exactly its contribution, whatever came before. */
  lemma FlatAddsItsValueUnder(base: real, s: seq<ModifierState>, x: ModifierState, v: Valuation, f: Valuation)
    requires DeadIsZero(v) && FactorsOf(f, v) && x.kind == Flat
    requires forall i :: 0 <= i < |s| ==> s[i].kind != PercentageMultiply
    ensures AggregateOf(base, s + [x], v) == AggregateOf(base, s, v) + v(x)
  {
    AggregateFormula(base, s + [x], v, f);
    AggregateFormula(base, s, v, f);
    KindTotalAppend(s, x, Flat, v);
    KindTotalAppend(s, x, PercentageAdd, v);
    NoMultipliersProductOne(s + [x], v, f);
    NoMultipliersProductOne(s, v, f);
    ClosedFormAtOne(base, KindTotal(s + [x], Flat, v), KindTotal(s + [x], PercentageAdd, v));
    ClosedFormAtOne(base, KindTotal(s, Flat, v), KindTotal(s, PercentageAdd, v));
  }

  lemma FlatAddsItsValue(base: real, s: seq<ModifierState>, x: ModifierState, now: real)
    requires Live(x) && x.kind == Flat && x.application == Permanent
    requires forall i :: 0 <= i < |s| ==> s[i].kind != PercentageMultiply
    ensures ValueOf(base, s + [x], now) == ValueOf(base, s, now) + x.value
  {
    var v := ValuedAt(now);
    SteadyValue(x, now);
    assert v(x) == x.value;
    FlatAddsItsValueUnder(base, s, x, v, Factors(v));
  }

  lemma {:induction false} NoMultipliersProductOne(s: seq<ModifierState>, v: Valuation, f: Valuation)
    requires FactorsOf(f, v)
    requires forall i :: 0 <= i < |s| ==> s[i].kind != PercentageMultiply
    ensures Product(s, f) == 1.0
  {
    if s != [] {
      var u := s[..|s| - 1];
      assert s == u + [s[|s| - 1]];
      NoMultipliersProductOne(u, v, f);
      assert f(s[|s| - 1]) == 1.0;
      ProductAppend(u, s[|s| - 1], f);
    }
  }

  // ----- Lemmas: the tick of a list -----

  /** A tick keeps exactly the modifiers that its own tick does not expire,
      in their original relative order (stated as: the tick distributes over
      concatenation, and a single modifier survives iff not expired). */
  lemma {:induction false} AfterTickConcat(a: seq<ModifierState>, b: seq<ModifierState>, now: real)
    ensures AfterTick(a + b, now) == AfterTick(a, now) + AfterTick(b, now)
  {
    if a == [] {
      assert a + b == b;
    } else {
      assert (a + b)[1..] == a[1..] + b;
      AfterTickConcat(a[1..], b, now);
    }
  }

  lemma AfterTickSingle(x: ModifierState, now: real)
    ensures AfterTick([x], now) == if Ticked(x, now).isExpired then [] else [Ticked(x, now)]
  {
    assert [x][1..] == [];
  }

  /** A Temporary or OverTime modifier whose duration has elapsed is gone after
      the tick: the list ticks as if it had never held that modifier, so it
      no longer contributes to any value. No expired modifier survives a tick. */
  lemma {:induction false} ElapsedModifierIsEvicted(s: seq<ModifierState>, i: int, now: real)
    requires 0 <= i < |s|
    requires ExpiresAt(s[i], now) || s[i].isExpired
    ensures forall y :: y in AfterTick(s, now) ==> !y.isExpired
    ensures |AfterTick(s, now)| < |s|
    ensures AfterTick(s, now) == AfterTick(s[..i] + s[i + 1..], now)
  {
    if i > 0 {
      ElapsedModifierIsEvicted(s[1..], i - 1, now);
    }
    DroppedBySplit(s[..i], s[i], s[i + 1..], now);
    assert s == s[..i] + [s[i]] + s[i + 1..];
  }

  /** A modifier that is expired after its tick drops out of the list around it. */
  lemma DroppedBySplit(a: seq<ModifierState>, x: ModifierState, b: seq<ModifierState>, now: real)
    requires Ticked(x, now).isExpired
    ensures AfterTick(a + [x] + b, now) == AfterTick(a + b, now)
  {
    assert a + [x] + b == a + ([x] + b);
    AfterTickConcat(a, [x] + b, now);
    AfterTickConcat([x], b, now);
    AfterTickSingle(x, now);
    AfterTickConcat(a, b, now);
  }

  /** Ticking twice at the same time is ticking once. */
  lemma {:induction false} AfterTickIdempotent(s: seq<ModifierState>, now: real)
    ensures AfterTick(AfterTick(s, now), now) == AfterTick(s, now)
  {
    if s != [] {
      AfterTickIdempotent(s[1..], now);
      var h := if Ticked(s[0], now).isExpired then [] else [Ticked(s[0], now)];
      AfterTickConcat(h, AfterTick(s[1..], now), now);
      if !Ticked(s[0], now).isExpired {
        AfterTickSingle(Ticked(s[0], now), now);
      }
    }
  }

  /** A worked example, step by step: base 100 with contributions 10, 20
      and 50. +10 flat gives 110; +20 % gives 130; x1.5 gives 195;
      without the flat modifier it is 180. */
  ghost predicate ScenarioValues(fl: ModifierState, pc: ModifierState, mu: ModifierState, v: Valuation, f: Valuation)
  {
    DeadIsZero(v) && FactorsOf(f, v)
    && fl.kind == Flat && pc.kind == PercentageAdd && mu.kind == PercentageMultiply
    && v(fl) == 10.0 && v(pc) == 20.0 && v(mu) == 50.0
  }

  lemma ScenarioFlatStep(fl: ModifierState, pc: ModifierState, mu: ModifierState, v: Valuation, f: Valuation)
    requires ScenarioValues(fl, pc, mu, v, f)
    ensures AggregateOf(100.0, [fl], v) == 110.0
  {
    assert [fl] == [] + [fl];
    assert f(fl) == 1.0;
    KindTotalAppend([], fl, Flat, v);
    KindTotalAppend([], fl, PercentageAdd, v);
    ProductAppend([], fl, f);
    AggregateFormula(100.0, [fl], v, f);
  }

  lemma ScenarioPercentStep(fl: ModifierState, pc: ModifierState, mu: ModifierState, v: Valuation, f: Valuation)
    requires ScenarioValues(fl, pc, mu, v, f)
    ensures AggregateOf(100.0, [fl, pc], v) == 130.0
  {
    Pair(fl, pc);
    assert f(fl) == 1.0 && f(pc) == 1.0;
    KindTotalAppend([], fl, Flat, v);
    KindTotalAppend([], fl, PercentageAdd, v);
    ProductAppend([], fl, f);
    KindTotalAppend([fl], pc, Flat, v);
    KindTotalAppend([fl], pc, PercentageAdd, v);
    ProductAppend([fl], pc, f);
    AggregateFormula(100.0, [fl, pc], v, f);
  }

  lemma ScenarioMultiplierStep(fl: ModifierState, pc: ModifierState, mu: ModifierState, v: Valuation, f: Valuation)
    requires ScenarioValues(fl, pc, mu, v, f)
    ensures AggregateOf(100.0, [fl, pc, mu], v) == 195.0
  {
    Pair(fl, pc);
    assert [fl, pc, mu] == [fl, pc] + [mu];
    assert f(fl) == 1.0 && f(pc) == 1.0 && f(mu) == 1.5;
    KindTotalAppend([], fl, Flat, v);
    KindTotalAppend([], fl, PercentageAdd, v);
    ProductAppend([], fl, f);
    KindTotalAppend([fl], pc, Flat, v);
    KindTotalAppend([fl], pc, PercentageAdd, v);
    ProductAppend([fl], pc, f);
    KindTotalAppend([fl, pc], mu, Flat, v);
    KindTotalAppend([fl, pc], mu, PercentageAdd, v);
    ProductAppend([fl, pc], mu, f);
    AggregateFormula(100.0, [fl, pc, mu], v, f);
  }

  lemma ScenarioWithoutFlat(fl: ModifierState, pc: ModifierState, mu: ModifierState, v: Valuation, f: Valuation)
    requires ScenarioValues(fl, pc, mu, v, f)
    ensures AggregateOf(100.0, [pc, mu], v) == 180.0
  {
    Pair(pc, mu);
    assert f(pc) == 1.0 && f(mu) == 1.5;
    KindTotalAppend([], pc, Flat, v);
    KindTotalAppend([], pc, PercentageAdd, v);
    ProductAppend([], pc, f);
    KindTotalAppend([pc], mu, Flat, v);
    KindTotalAppend([pc], mu, PercentageAdd, v);
    ProductAppend([pc], mu, f);
    AggregateFormula(100.0, [pc, mu], v, f);
  }

  /** A worked example: base 100 with live permanent modifiers of +10 flat,
      +20 % and x1.5, at any time. */
  lemma WorkedScenario(fl: ModifierState, pc: ModifierState, mu: ModifierState, now: real)
    requires Live(fl) && fl.kind == Flat && fl.application == Permanent && fl.value == 10.0
    requires Live(pc) && pc.kind == PercentageAdd && pc.application == Permanent && pc.value == 20.0
    requires Live(mu) && mu.kind == PercentageMultiply && mu.application == Permanent && mu.value == 50.0
    ensures ValueOf(100.0, [fl], now) == 110.0
    ensures ValueOf(100.0, [fl, pc], now) == 130.0
    ensures ValueOf(100.0, [fl, pc, mu], now) == 195.0
    ensures ValueOf(100.0, [pc, mu], now) == 180.0
  {
    assert ValuedAt(now)(fl) == 10.0 && ValuedAt(now)(pc) == 20.0 && ValuedAt(now)(mu) == 50.0;
    var v := ValuedAt(now);
    var f := Factors(v);
    ScenarioFlatStep(fl, pc, mu, v, f);
    ScenarioPercentStep(fl, pc, mu, v, f);
    ScenarioMultiplierStep(fl, pc, mu, v, f);
    ScenarioWithoutFlat(fl, pc, mu, v, f);
  }
}
