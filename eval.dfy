/**
 * The tree-walking evaluator over the older expression tree. An evaluator owns a seeded
 * random source; walking a tree is post-order, left before right, on i32 values, and
 * only `Roll` nodes draw from the source. It has no error path: an overflow, a division
 * by zero or `-i32::MIN` panics, and `Walked` is `None` exactly for those trees.
 */
module Evaluator {
  import opened Integers
  import opened Wrappers
  import opened LegacyExpr
  import Random
  import Dice

  /** `Output { total }`: the result of one evaluation. */
  datatype Output = Output(total: I32)

  /** Whether a tree contains a `Roll` node. */
  predicate HasRoll(ast: Expr)
  {
    match ast
    case Integer(_) => false
    case Roll(_, _) => true
    case _ => HasRoll(ast.left) || HasRoll(ast.right)
  }

  /** An i32 result, or `None` for a value that overflows. */
  function Fits(v: int, k: nat): (r: Option<(I32, nat)>)
    ensures r.Some? <==> InI32(v)
    ensures r.Some? ==> r.value.0 == v && r.value.1 == k
  {
    if InI32(v) then Some((v, k)) else None
  }

  /**
   * What `walk` computes when the source has seed `seed` and has given `start` draws:
   * the total and the number of draws given afterwards, or `None` if the walk panics.
   * The left child is walked first, then the right one from where the left one left
   * the source, then the node's own operation.
   */
  function Walked(seed: U64, start: nat, ast: Expr): (r: Option<(I32, nat)>)
    ensures r.Some? ==> r.value.1 >= start
    decreases ast
  {
    match ast
    case Integer(n) => Some((n, start))
    case _ =>
      match Walked(seed, start, ast.left)
      case None => None
      case Some((x, k1)) =>
        match Walked(seed, k1, ast.right)
        case None => None
        case Some((y, k2)) => Apply(seed, k2, ast, x, y)
  }

  /** A node's own operation on its walked children, with the source at `k` draws. */
  function Apply(seed: U64, k: nat, ast: Expr, x: I32, y: I32): (r: Option<(I32, nat)>)
    requires !ast.Integer?
    ensures r.Some? ==> r.value.1 >= k
    ensures r.Some? && !ast.Roll? ==> r.value.1 == k
  {
    match ast
    case Add(_, _) => Fits(x + y, k)
    case Sub(_, _) => Fits(x - y, k)
    case Mult(_, _) => Fits(x * y, k)
    case Div(_, _) =>
      if y == 0 || (x == I32_MIN && y == -1) then None
      else
        TruncDivInI32(x, y);
        Some((TruncDiv(x, y), k))
    case Pow(_, _) => Fits(IPow(x, AsU32(y)), k)
    case Roll(_, _) => Rolled(seed, k, x, y)
  }

  /**
   * What `roll` computes: `num_die` dice summed in loop order, one draw each unless the
   * dice have no sides; `None` when a running total overflows or `-num_sides` does.
   */
  function Rolled(seed: U64, k: nat, numDie: I32, numSides: I32): (r: Option<(I32, nat)>)
    ensures r.Some? ==> r.value.1 == k + Dice.Draws(numDie, numSides)
  {
    var n := Dice.Count(numDie);
    if numDie > 0 && numSides == I32_MIN then None
    else if Dice.SumsWithin(seed, k, n, numSides, I32_MIN, I32_MAX) then
      Some((Dice.DiceTotal(seed, k, n, numSides), k + Dice.Draws(numDie, numSides)))
    else None
  }

  /** Walking several trees in turn on one evaluator: their totals, in order. */
  function WalkedAll(seed: U64, start: nat, asts: seq<Expr>): (r: Option<(seq<Output>, nat)>)
    ensures r.Some? ==> |r.value.0| == |asts| && r.value.1 >= start
    decreases |asts|
  {
    if |asts| == 0 then Some(([], start))
    else
      match Walked(seed, start, asts[0])
      case None => None
      case Some((v, k)) =>
        match WalkedAll(seed, k, asts[1..])
        case None => None
        case Some((outs, k2)) => Some(([Output(v)] + outs, k2))
  }

  /**
   * A tree without `Roll` takes no draws and its walk does not depend on the source:
   * from any seed and any draw count it panics alike or gives the same total.
   */
  lemma {:induction false} NoRollNoDraws(seed1: U64, k1: nat, seed2: U64, k2: nat, ast: Expr)
    requires !HasRoll(ast)
    ensures Walked(seed1, k1, ast).Some? <==> Walked(seed2, k2, ast).Some?
    ensures Walked(seed1, k1, ast).Some? ==>
              Walked(seed1, k1, ast).value.1 == k1 &&
              Walked(seed1, k1, ast).value.0 == Walked(seed2, k2, ast).value.0
    decreases ast
  {
    if !ast.Integer? {
      NoRollNoDraws(seed1, k1, seed2, k2, ast.left);
      var l1, l2 := Walked(seed1, k1, ast.left), Walked(seed2, k2, ast.left);
      if l1.Some? {
        NoRollNoDraws(seed1, l1.value.1, seed2, l2.value.1, ast.right);
      }
    }
  }

  /**
   * A roll of `n` dice with `s > 0` sides totals between `n` and `n * s`, with `s < 0`
   * sides between `n * s` and `-n`; zero or fewer dice, or no sides, total `0`.
   */
  lemma RolledBounds(seed: U64, k: nat, numDie: I32, numSides: I32)
    requires Rolled(seed, k, numDie, numSides).Some?
    ensures var t := Rolled(seed, k, numDie, numSides).value.0;
            var n := Dice.Count(numDie);
            && (numSides > 0 ==> n <= t <= n * numSides)
            && (numSides < 0 ==> n * numSides <= t <= -(n as int))
            && (numDie <= 0 || numSides == 0 ==> t == 0)
  {
    Dice.DiceTotalBounds(seed, k, Dice.Count(numDie), numSides);
  }

  /** The evaluator: it owns its random source. */
  class Eval {
    const rng: Random.Rng

    /** `new_with_seed`: a fresh source seeded with `seed`, no draws taken. */
    constructor NewWithSeed(seed: U64)
      ensures fresh(rng) && rng.seed == seed && rng.draws == 0
    {
      rng := new Random.Rng.SeedFromU64(seed);
    }

    /** `eval`: the output holds the walked total; the source advances as the walk says. */
    method Eval(ast: Expr) returns (o: Output)
      requires Walked(rng.seed, rng.draws, ast).Some?
      modifies rng
      ensures Walked(rng.seed, old(rng.draws), ast) == Some((o.total, rng.draws))
    {
      var total := Walk(ast);
      o := Output(total);
    }

    /** `walk`: post-order, left before right, as `Walked` says. */
    method Walk(ast: Expr) returns (total: I32)
      requires Walked(rng.seed, rng.draws, ast).Some?
      modifies rng
      ensures Walked(rng.seed, old(rng.draws), ast) == Some((total, rng.draws))
      decreases ast
    {
      match ast
      case Integer(n) =>
        total := n;
      case Add(l, r) =>
        var x := Walk(l);
        var y := Walk(r);
        total := x + y;
      case Sub(l, r) =>
        var x := Walk(l);
        var y := Walk(r);
        total := x - y;
      case Mult(l, r) =>
        var x := Walk(l);
        var y := Walk(r);
        total := x * y;
      case Div(l, r) =>
        var x := Walk(l);
        var y := Walk(r);
        total := TruncDiv(x, y);
      case Pow(l, r) =>
        var x := Walk(l);
        var y := Walk(r);
        total := IPow(x, AsU32(y));
      case Roll(l, r) =>
        var numDie := Walk(l);
        var numSides := Walk(r);
        total := Roll(numDie, numSides);
    }

    /** `roll`: `num_die` dice from the source, summed in loop order. */
    method Roll(numDie: I32, numSides: I32) returns (total: I32)
      requires Rolled(rng.seed, rng.draws, numDie, numSides).Some?
      modifies rng
      ensures Rolled(rng.seed, old(rng.draws), numDie, numSides) == Some((total, rng.draws))
    {
      var seed, start := rng.seed, rng.draws;
      total := 0;
      var i: I32 := 0;
      while i < numDie
        invariant 0 <= i <= Dice.Count(numDie)
        invariant rng.seed == seed && rng.draws == start + Dice.Draws(i, numSides)
        invariant total == Dice.DiceTotal(seed, start, i, numSides)
      {
        var die := RollOne(numSides);
        var next := total + die;
        assert next == Dice.DiceTotal(seed, start, i + 1, numSides);
        total := next;
        i := i + 1;
      }
    }

    /** `roll_one`: `0` without a draw for no sides, else one die from the next draw. */
    method RollOne(numSides: I32) returns (v: I32)
      requires numSides != I32_MIN
      modifies rng
      ensures v == Dice.OneDie(rng.seed, old(rng.draws), numSides)
      ensures rng.draws == old(rng.draws) + (if numSides == 0 then 0 else 1)
    {
      if numSides == 0 {
        v := 0;
      } else if numSides < 0 {
        var x := rng.GenRange(-numSides);
        v := -x - 1;
      } else {
        var x := rng.GenRange(numSides);
        v := x + 1;
      }
    }
  }

  /** The walk of the trees from `i` on is the walk of tree `i`, then of the rest. */
  lemma WalkedAllAt(seed: U64, start: nat, asts: seq<Expr>, i: nat)
    requires i < |asts| && WalkedAll(seed, start, asts[i..]).Some?
    ensures var w := Walked(seed, start, asts[i]);
            && w.Some? && WalkedAll(seed, w.value.1, asts[i + 1..]).Some?
            && WalkedAll(seed, start, asts[i..]).value
               == ([Output(w.value.0)] + WalkedAll(seed, w.value.1, asts[i + 1..]).value.0,
                   WalkedAll(seed, w.value.1, asts[i + 1..]).value.1)
  {
    assert asts[i..][0] == asts[i] && asts[i..][1..] == asts[i + 1..];
  }

  /** Evaluating several trees in turn on one evaluator gives what `WalkedAll` says. */
  method EvalAll(e: Eval, asts: seq<Expr>) returns (outs: seq<Output>)
    requires WalkedAll(e.rng.seed, e.rng.draws, asts).Some?
    modifies e.rng
    ensures WalkedAll(e.rng.seed, old(e.rng.draws), asts) == Some((outs, e.rng.draws))
  {
    var seed, start := e.rng.seed, e.rng.draws;
    outs := [];
    var i := 0;
    assert asts[0..] == asts;
    assert [] + WalkedAll(seed, start, asts).value.0 == WalkedAll(seed, start, asts).value.0;
    while i < |asts|
      invariant 0 <= i <= |asts| && e.rng.seed == seed
      invariant WalkedAll(seed, e.rng.draws, asts[i..]).Some?
      invariant WalkedAll(seed, start, asts).value.0 == outs + WalkedAll(seed, e.rng.draws, asts[i..]).value.0
      invariant WalkedAll(seed, start, asts).value.1 == WalkedAll(seed, e.rng.draws, asts[i..]).value.1
    {
      var rest := WalkedAll(seed, e.rng.draws, asts[i..]).value.0;
      WalkedAllAt(seed, e.rng.draws, asts, i);
      var o := e.Eval(asts[i]);
      var rest' := WalkedAll(seed, e.rng.draws, asts[i + 1..]).value.0;
      assert rest == [o] + rest';
      assert outs + rest == (outs + [o]) + rest';
      outs := outs + [o];
      i := i + 1;
    }
    assert asts[|asts|..] == [];
    assert outs + [] == outs;
  }

  /**
   * Reproducibility: two evaluators made with the same seed, given the same trees in the
   * same order, return the same outputs.
   */
  method Reproducible(seed: U64, asts: seq<Expr>) returns (first: seq<Output>, second: seq<Output>)
    requires WalkedAll(seed, 0, asts).Some?
    ensures first == second && WalkedAll(seed, 0, asts) == Some((first, WalkedAll(seed, 0, asts).value.1))
  {
    var e1 := new Eval.NewWithSeed(seed);
    var e2 := new Eval.NewWithSeed(seed);
    first := EvalAll(e1, asts);
    second := EvalAll(e2, asts);
  }
}
