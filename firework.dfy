/** The firework sketch: a firework is a set of walkers that all start at
    the clicked point, one per angle index 0..7. Every move steps each
    walker once; every 40th move, up to the 160th, each walker is replaced
    by a fresh fan of 8 walkers starting where it stands. A walker's step
    (cos(angle) * step, sin(angle) * step) is trigonometry and enters the
    model as a vector per angle index. */
module Fireworks {
  import opened Common

  /** range(n): the indices 0, 1, ..., n - 1 in order. */
  function Range(n: nat): (r: seq<nat>)
    ensures |r| == n
    ensures forall i | 0 <= i < n :: r[i] == i
  {
    if n == 0 then [] else Range(n - 1) + [n - 1]
  }

  const AngleDiv: nat := 8
  const DispersionTime: nat := 40
  const DispersionCount: nat := 4

  /** What a walker holds: where it started, where it is, and which of the
      8 directions it walks in. */
  datatype WalkerState = WalkerState(start: Vec, position: Vec, angleIndex: nat)

  /** dispersion(start): one walker per angle index, all at start. */
  function Fan(start: Vec): seq<WalkerState> {
    seq(AngleDiv, i requires 0 <= i < AngleDiv => WalkerState(start, start, i))
  }

  /** Every walker moved once by the step of its direction. */
  function Advance(ws: seq<WalkerState>, stepOf: nat -> Vec): (ws': seq<WalkerState>)
    ensures |ws'| == |ws|
    ensures forall i | 0 <= i < |ws| ::
      ws'[i] == ws[i].(position := ws[i].position.Plus(stepOf(ws[i].angleIndex)))
  {
    seq(|ws|, i requires 0 <= i < |ws| => ws[i].(position := ws[i].position.Plus(stepOf(ws[i].angleIndex))))
  }

  /** walkers.flatMap(w => dispersion(w.position)). */
  function Disperse(ws: seq<WalkerState>): seq<WalkerState>
    decreases |ws|
  {
    if ws == [] then [] else Fan(ws[0].position) + Disperse(ws[1..])
  }

  /** The move that brings progress to p disperses: p is a multiple of
      DispersionTime and at most DispersionTime * DispersionCount. */
  predicate DispersesAt(p: nat) {
    p % DispersionTime == 0 && p <= DispersionTime * DispersionCount
  }

  /** The number of walkers after p moves: 8^(1 + min(p div 40, 4)). */
  function WalkerCount(p: nat): nat {
    Pow(8, 1 + if p / DispersionTime <= DispersionCount then p / DispersionTime else DispersionCount)
  }

  /** A dispersion multiplies the count by 8. */
  lemma {:induction false} DisperseLength(ws: seq<WalkerState>)
    ensures |Disperse(ws)| == AngleDiv * |ws|
    decreases |ws|
  {
    if ws != [] {
      DisperseLength(ws[1..]);
    }
  }

  /** A dispersion multiplies the count by 8 and links child 8 * i + a to
      parent i: it starts at the parent's position with angle index a. */
  lemma {:induction false} DisperseShape(ws: seq<WalkerState>)
    ensures |Disperse(ws)| == AngleDiv * |ws|
    ensures forall i, a | 0 <= i < |ws| && 0 <= a < AngleDiv ::
      Disperse(ws)[AngleDiv * i + a] == WalkerState(ws[i].position, ws[i].position, a)
    decreases |ws|
  {
    if ws != [] {
      DisperseShape(ws[1..]);
      forall i, a | 0 <= i < |ws| && 0 <= a < AngleDiv
        ensures Disperse(ws)[AngleDiv * i + a] == WalkerState(ws[i].position, ws[i].position, a)
      {
        if i > 0 {
          assert AngleDiv * i + a == AngleDiv + (AngleDiv * (i - 1) + a);
          assert ws[1..][i - 1] == ws[i];
        }
      }
    }
  }

  /** Dispersing a concatenation disperses the parts. */
  lemma {:induction false} DisperseAppend(ws: seq<WalkerState>, ws': seq<WalkerState>)
    ensures Disperse(ws + ws') == Disperse(ws) + Disperse(ws')
    decreases |ws|
  {
    if ws == [] {
      assert ws + ws' == ws';
    } else {
      assert (ws + ws')[1..] == ws[1..] + ws';
      DisperseAppend(ws[1..], ws');
    }
  }

  /** One move changes the count exactly as the dispersion rule says. */
  lemma WalkerCountStep(p: nat)
    ensures WalkerCount(p + 1) == if DispersesAt(p + 1) then AngleDiv * WalkerCount(p) else WalkerCount(p)
  {
  }

  /** Four dispersions at most: never more than 8^5 = 32768 walkers. */
  lemma WalkerCountBounded(p: nat)
    ensures 8 <= WalkerCount(p) <= 32768
  {
    assert Pow(8, 1) == 8 && Pow(8, 5) == 32768;
    var e := 1 + if p / DispersionTime <= DispersionCount then p / DispersionTime else DispersionCount;
    assert 1 <= e <= 5;
    if e == 2 { assert Pow(8, 2) == 64; }
    if e == 3 { assert Pow(8, 3) == 512; }
    if e == 4 { assert Pow(8, 4) == 4096; }
  }

  class Walker {
    const startPosition: Vec
    var position: Vec
    /** The walker's angle is TWO_PI / AngleDiv * angleIndex. */
    const angleIndex: nat
    /** (cos(angle) * step, sin(angle) * step), for the step length the
        firework gives its walkers. */
    const stepVector: Vec

    constructor (center: Vec, angleIndex: nat, stepVector: Vec)
      ensures startPosition == center && position == center
      ensures this.angleIndex == angleIndex && this.stepVector == stepVector
    {
      startPosition := center;
      position := center;
      this.angleIndex := angleIndex;
      this.stepVector := stepVector;
    }

    function State(): WalkerState
      reads this
    {
      WalkerState(startPosition, position, angleIndex)
    }

    /** Moves one step; only the position changes. */
    method Move()
      modifies this
      ensures position == old(position).Plus(stepVector)
      ensures State() == old(State()).(position := old(position).Plus(stepVector))
    {
      position := position.Plus(stepVector);
    }
  }

  /** The states of a sequence of walkers, in order. */
  function StatesOf(ws: seq<Walker>): (states: seq<WalkerState>)
    reads ws
    ensures |states| == |ws|
    ensures forall i | 0 <= i < |ws| :: states[i] == ws[i].State()
  {
    seq(|ws|, i requires 0 <= i < |ws| reads ws => ws[i].State())
  }

  /** No walker appears twice. */
  ghost predicate Distinct(ws: seq<Walker>) {
    forall i, j | 0 <= i < j < |ws| :: ws[i] != ws[j]
  }

  /** Every walker walks in one of the 8 directions, with that direction's
      step. */
  ghost predicate Directed(ws: seq<Walker>, stepOf: nat -> Vec) {
    forall i | 0 <= i < |ws| :: ws[i].angleIndex < AngleDiv && ws[i].stepVector == stepOf(ws[i].angleIndex)
  }

  lemma DirectedAppend(ws: seq<Walker>, ws': seq<Walker>, stepOf: nat -> Vec)
    requires Directed(ws, stepOf) && Directed(ws', stepOf)
    ensures Directed(ws + ws', stepOf)
  {
    forall i | 0 <= i < |ws + ws'|
      ensures (ws + ws')[i].angleIndex < AngleDiv && (ws + ws')[i].stepVector == stepOf((ws + ws')[i].angleIndex)
    {
      if i >= |ws| {
        assert (ws + ws')[i] == ws'[i - |ws|];
      }
    }
  }

  lemma DistinctAppend(ws: seq<Walker>, ws': seq<Walker>)
    requires Distinct(ws) && Distinct(ws')
    requires forall i, j | 0 <= i < |ws| && 0 <= j < |ws'| :: ws[i] != ws'[j]
    ensures Distinct(ws + ws')
  {
    forall i, j | 0 <= i < j < |ws + ws'|
      ensures (ws + ws')[i] != (ws + ws')[j]
    {
      if j >= |ws| {
        assert (ws + ws')[j] == ws'[j - |ws|];
      }
      if i >= |ws| {
        assert (ws + ws')[i] == ws'[i - |ws|];
      }
    }
  }

  lemma StatesOfAppend(ws: seq<Walker>, ws': seq<Walker>)
    ensures StatesOf(ws + ws') == StatesOf(ws) + StatesOf(ws')
  {
    assert |StatesOf(ws + ws')| == |StatesOf(ws) + StatesOf(ws')|;
    forall i | 0 <= i < |ws + ws'|
      ensures StatesOf(ws + ws')[i] == (StatesOf(ws) + StatesOf(ws'))[i]
    {
      if i >= |ws| {
        assert (ws + ws')[i] == ws'[i - |ws|];
      }
    }
  }

  class Firework {
    const startPosition: Vec
    /** The step vector of each angle index, for the walkers' step of 4. */
    const stepOf: nat -> Vec
    var walkers: seq<Walker>
    var progress: nat

    /** The walkers are distinct objects, each walks in one of the 8
        directions with that direction's step, and there are as many as
        the dispersions so far make. */
    ghost predicate Valid()
      reads this
    {
      && |walkers| == WalkerCount(progress)
      && Distinct(walkers)
      && Directed(walkers, stepOf)
    }

    function States(): (ws: seq<WalkerState>)
      reads this, walkers
      ensures |ws| == |walkers|
      ensures forall i | 0 <= i < |walkers| :: ws[i] == walkers[i].State()
    {
      StatesOf(walkers)
    }

    constructor (center: Vec, stepOf: nat -> Vec)
      ensures Valid()
      ensures startPosition == center && this.stepOf == stepOf
      ensures progress == 0
      ensures States() == Fan(center)
      ensures forall i | 0 <= i < |walkers| :: fresh(walkers[i])
    {
      startPosition := center;
      this.stepOf := stepOf;
      new;
      walkers := Dispersion(center);
      progress := 0;
      assert WalkerCount(0) == Pow(8, 1) == 8;
    }

    /** dispersion(start): a fresh walker per angle index, all at start. */
    method Dispersion(start: Vec) returns (fan: seq<Walker>)
      ensures |fan| == AngleDiv
      ensures forall i | 0 <= i < |fan| ::
        && fresh(fan[i])
        && fan[i].State() == WalkerState(start, start, i)
        && fan[i].stepVector == stepOf(i)
      ensures Distinct(fan) && Directed(fan, stepOf)
    {
      fan := [];
      var indices := Range(AngleDiv);
      for k := 0 to |indices|
        invariant |fan| == k
        invariant forall i | 0 <= i < k ::
          && fresh(fan[i])
          && fan[i].State() == WalkerState(start, start, i)
          && fan[i].stepVector == stepOf(i)
        invariant Distinct(fan)
      {
        var i := indices[k];
        var walker := new Walker(start, i, stepOf(i));
        fan := fan + [walker];
      }
    }

    /** One animation step: every walker moves once, then, on every 40th
        step up to the 160th, every walker is replaced by a fan of 8. */
    method Move()
      requires Valid()
      modifies this, walkers
      ensures Valid()
      ensures progress == old(progress) + 1
      ensures DispersesAt(progress) ==> States() == Disperse(Advance(old(States()), stepOf))
      ensures !DispersesAt(progress) ==> States() == Advance(old(States()), stepOf)
    {
      ghost var before := StatesOf(walkers);
      progress := progress + 1;
      assert StatesOf(walkers) == before;
      MoveWalkers();
      ghost var moved := StatesOf(walkers);
      assert moved == Advance(before, stepOf);
      WalkerCountStep(old(progress));
      if progress % DispersionTime == 0 && progress <= DispersionTime * DispersionCount {
        assert DispersesAt(progress);
        DisperseLength(moved);
        walkers := DispersedWalkers();
        assert StatesOf(walkers) == Disperse(moved);
        assert |walkers| == AngleDiv * |moved| == WalkerCount(progress);
      } else {
        assert !DispersesAt(progress);
      }
    }

    /** `for (const walker of this.walkers) walker.move()`. */
    method MoveWalkers()
      requires Distinct(walkers) && Directed(walkers, stepOf)
      modifies walkers
      ensures States() == Advance(old(States()), stepOf)
    {
      ghost var before := States();
      for k := 0 to |walkers|
        invariant forall i | 0 <= i < k ::
          walkers[i].State() == before[i].(position := before[i].position.Plus(stepOf(before[i].angleIndex)))
        invariant forall i | k <= i < |walkers| :: walkers[i].State() == before[i]
      {
        walkers[k].Move();
      }
    }

    /** walkers.flatMap(walker => dispersion(walker.position)): fresh,
        distinct walkers whose states are the dispersion of the current
        ones. */
    method DispersedWalkers() returns (next: seq<Walker>)
      ensures StatesOf(next) == Disperse(States())
      ensures forall i | 0 <= i < |next| :: fresh(next[i])
      ensures Distinct(next) && Directed(next, stepOf)
    {
      ghost var current := States();
      next := [];
      for k := 0 to |walkers|
        invariant forall i | 0 <= i < |next| :: fresh(next[i])
        invariant Distinct(next) && Directed(next, stepOf)
        invariant StatesOf(next) == Disperse(current[..k])
      {
        ghost var done := StatesOf(next);
        var fan := Dispersion(walkers[k].position);
        assert StatesOf(fan) == Fan(current[k].position);
        assert StatesOf(next) == done;
        StatesOfAppend(next, fan);
        DistinctAppend(next, fan);
        DirectedAppend(next, fan, stepOf);
        next := next + fan;
        assert current[..k + 1] == current[..k] + [current[k]];
        DisperseAppend(current[..k], [current[k]]);
        assert Disperse([current[k]]) == Fan(current[k].position) + Disperse([]);
      }
      assert current[..|walkers|] == current;
    }

    /** However long it runs, a firework holds between 8 and 32768 walkers. */
    lemma WalkersBounded()
      requires Valid()
      ensures 8 <= |walkers| <= 32768
    {
      WalkerCountBounded(progress);
    }
  }
}
